/** The base 64 encoding of section 4 of RFC 4648 (Go's `base64.StdEncoding`):
    alphabet A-Z a-z 0-9 + /, every 3 input bytes become 4 characters, and a
    final group of 1 or 2 bytes is completed with `=` padding. */
module Base64 {
  import opened GoTypes

  /** A 6-bit group, the index of one alphabet character. */
  type Sextet = x: int | 0 <= x < 64

  /** The padding character `=`. */
  const Pad: byte := 61

  /** The characters of the alphabet (Table 1 of RFC 4648). */
  predicate IsAlphabetChar(c: byte) {
    (65 <= c <= 90) || (97 <= c <= 122) || (48 <= c <= 57) || c == 43 || c == 47
  }

  /** The alphabet character of a sextet: 0-25 `A`-`Z`, 26-51 `a`-`z`,
      52-61 `0`-`9`, 62 `+`, 63 `/`. */
  function CharOf(v: Sextet): (c: byte)
    ensures IsAlphabetChar(c)
  {
    if v < 26 then 65 + v
    else if v < 52 then 97 + (v - 26)
    else if v < 62 then 48 + (v - 52)
    else if v == 62 then 43
    else 47
  }

  /** The sextet an alphabet character stands for; inverse of CharOf. */
  function SextetOf(c: byte): (v: Sextet)
    requires IsAlphabetChar(c)
    ensures CharOf(v) == c
  {
    if 65 <= c <= 90 then c - 65
    else if 97 <= c <= 122 then c - 97 + 26
    else if 48 <= c <= 57 then c - 48 + 52
    else if c == 43 then 62
    else 63
  }

  lemma SextetOfCharOf(v: Sextet)
    ensures SextetOf(CharOf(v)) == v
  {
  }

  /** Three bytes a, b, c as four characters (24 bits, most significant first). */
  function EncodeQuantum(a: byte, b: byte, c: byte): (r: seq<byte>)
    ensures |r| == 4
  {
    [CharOf(a / 4), CharOf((a % 4) * 16 + b / 16), CharOf((b % 16) * 4 + c / 64), CharOf(c % 64)]
  }

  /** A final group of one byte: two characters and two `=`. */
  function EncodeOne(a: byte): (r: seq<byte>)
    ensures |r| == 4
  {
    [CharOf(a / 4), CharOf((a % 4) * 16), Pad, Pad]
  }

  /** A final group of two bytes: three characters and one `=`. */
  function EncodeTwo(a: byte, b: byte): (r: seq<byte>)
    ensures |r| == 4
  {
    [CharOf(a / 4), CharOf((a % 4) * 16 + b / 16), CharOf((b % 16) * 4), Pad]
  }

  /** `base64.StdEncoding.EncodeToString`. */
  function Encode(s: seq<byte>): (r: seq<byte>)
    ensures |r| % 4 == 0
    ensures |s| > 0 ==> |r| > 0
    decreases |s|
  {
    if |s| == 0 then []
    else if |s| == 1 then EncodeOne(s[0])
    else if |s| == 2 then EncodeTwo(s[0], s[1])
    else
      var rest := Encode(s[3..]);
      Mod4Step(|rest|);
      EncodeQuantum(s[0], s[1], s[2]) + rest
  }

  /** A group of four characters does not change a length modulo 4. */
  lemma Mod4Step(n: nat)
    ensures (n + 4) % 4 == n % 4
  {
  }

  /** The encoding of n bytes has 4·⌈n/3⌉ characters. */
  lemma {:induction false} EncodeLength(s: seq<byte>)
    ensures |Encode(s)| == 4 * ((|s| + 2) / 3)
    decreases |s|
  {
    if |s| >= 3 {
      EncodeLength(s[3..]);
      assert |Encode(s)| == 4 + |Encode(s[3..])|;
      assert (|s| + 2) / 3 == (|s| - 3 + 2) / 3 + 1;
    }
  }

  /** Number of `=` characters that end the encoding of n bytes. */
  function PadCount(n: nat): (p: nat)
    ensures p <= 2
  {
    (3 - n % 3) % 3
  }

  /** Four characters of a non-final group: all of them from the alphabet. */
  function DecodeQuantum(c0: byte, c1: byte, c2: byte, c3: byte): Option<seq<byte>> {
    if IsAlphabetChar(c0) && IsAlphabetChar(c1) && IsAlphabetChar(c2) && IsAlphabetChar(c3) then
      var v0, v1, v2, v3 := SextetOf(c0), SextetOf(c1), SextetOf(c2), SextetOf(c3);
      Some([v0 * 4 + v1 / 16, (v1 % 16) * 16 + v2 / 4, (v2 % 4) * 64 + v3])
    else None
  }

  /** The last four characters: a full group, or one or two bytes followed by
      padding whose unused bits are zero (the canonical encoding of section 3.5 of RFC 4648). */
  function DecodeFinal(c0: byte, c1: byte, c2: byte, c3: byte): Option<seq<byte>> {
    if !IsAlphabetChar(c0) || !IsAlphabetChar(c1) then None
    else if c2 == Pad && c3 == Pad then
      var v0, v1 := SextetOf(c0), SextetOf(c1);
      if v1 % 16 == 0 then Some([v0 * 4 + v1 / 16]) else None
    else if IsAlphabetChar(c2) && c3 == Pad then
      var v0, v1, v2 := SextetOf(c0), SextetOf(c1), SextetOf(c2);
      if v2 % 4 == 0 then Some([v0 * 4 + v1 / 16, (v1 % 16) * 16 + v2 / 4]) else None
    else DecodeQuantum(c0, c1, c2, c3)
  }

  /** Strict decoding of a standard base 64 text: None for anything that is not
      the canonical encoding of some byte sequence. */
  function Decode(s: seq<byte>): (r: Option<seq<byte>>)
    decreases |s|
  {
    if |s| == 0 then Some([])
    else if |s| % 4 != 0 then None
    else if |s| == 4 then DecodeFinal(s[0], s[1], s[2], s[3])
    else
      match DecodeQuantum(s[0], s[1], s[2], s[3])
      case None => None
      case Some(q) =>
        match Decode(s[4..])
        case None => None
        case Some(rest) => Some(q + rest)
  }

  /** `=` is not an alphabet character, so padding is never mistaken for data. */
  lemma PadIsNotAlphabet()
    ensures !IsAlphabetChar(Pad)
  {
  }

  /** The 6-bit groups of three bytes give the bytes back. */
  lemma QuantumArith(a: byte, b: byte, c: byte)
    ensures var v0, v1, v2, v3 := a / 4, (a % 4) * 16 + b / 16, (b % 16) * 4 + c / 64, c % 64;
      0 <= v1 < 64 && 0 <= v2 < 64 &&
      v0 * 4 + v1 / 16 == a && (v1 % 16) * 16 + v2 / 4 == b && (v2 % 4) * 64 + v3 == c
  {
    var v1, v2 := (a % 4) * 16 + b / 16, (b % 16) * 4 + c / 64;
    assert v1 / 16 == a % 4 && v1 % 16 == b / 16;
    assert v2 / 4 == b % 16 && v2 % 4 == c / 64;
  }

  lemma QuantumRoundTrip(a: byte, b: byte, c: byte)
    ensures var q := EncodeQuantum(a, b, c);
      DecodeQuantum(q[0], q[1], q[2], q[3]) == Some([a, b, c])
  {
    var v0: Sextet, v1: Sextet, v2: Sextet, v3: Sextet := a / 4, (a % 4) * 16 + b / 16, (b % 16) * 4 + c / 64, c % 64;
    QuantumArith(a, b, c);
    SextetOfCharOf(v0);
    SextetOfCharOf(v1);
    SextetOfCharOf(v2);
    SextetOfCharOf(v3);
    var q := EncodeQuantum(a, b, c);
    assert q == [CharOf(v0), CharOf(v1), CharOf(v2), CharOf(v3)];
    DecodeQuantumOf(v0, v1, v2, v3);
  }

  /** Decoding four alphabet characters reads their sextets as 24 bits. */
  lemma DecodeQuantumOf(v0: Sextet, v1: Sextet, v2: Sextet, v3: Sextet)
    ensures DecodeQuantum(CharOf(v0), CharOf(v1), CharOf(v2), CharOf(v3))
      == Some([v0 * 4 + v1 / 16, (v1 % 16) * 16 + v2 / 4, (v2 % 4) * 64 + v3])
  {
    SextetOfCharOf(v0);
    SextetOfCharOf(v1);
    SextetOfCharOf(v2);
    SextetOfCharOf(v3);
  }

  /** Decoding two characters and two `=` reads one byte, if the unused bits are zero. */
  lemma DecodeOneOf(v0: Sextet, v1: Sextet)
    requires v1 % 16 == 0
    ensures DecodeFinal(CharOf(v0), CharOf(v1), Pad, Pad) == Some([v0 * 4 + v1 / 16])
  {
    SextetOfCharOf(v0);
    SextetOfCharOf(v1);
  }

  /** Decoding three characters and one `=` reads two bytes, if the unused bits are zero. */
  lemma DecodeTwoOf(v0: Sextet, v1: Sextet, v2: Sextet)
    requires v2 % 4 == 0
    ensures DecodeFinal(CharOf(v0), CharOf(v1), CharOf(v2), Pad)
      == Some([v0 * 4 + v1 / 16, (v1 % 16) * 16 + v2 / 4])
  {
    SextetOfCharOf(v0);
    SextetOfCharOf(v1);
    SextetOfCharOf(v2);
    PadIsNotAlphabet();
  }

  lemma OneRoundTrip(a: byte)
    ensures var q := EncodeOne(a);
      DecodeFinal(q[0], q[1], q[2], q[3]) == Some([a])
  {
    QuantumArith(a, 0, 0);
    var v0: Sextet, v1: Sextet := a / 4, (a % 4) * 16;
    var q := EncodeOne(a);
    assert q == [CharOf(v0), CharOf(v1), Pad, Pad];
    DecodeOneOf(v0, v1);
  }

  lemma TwoRoundTrip(a: byte, b: byte)
    ensures var q := EncodeTwo(a, b);
      DecodeFinal(q[0], q[1], q[2], q[3]) == Some([a, b])
  {
    QuantumArith(a, b, 0);
    var v0: Sextet, v1: Sextet, v2: Sextet := a / 4, (a % 4) * 16 + b / 16, (b % 16) * 4;
    var q := EncodeTwo(a, b);
    assert q == [CharOf(v0), CharOf(v1), CharOf(v2), Pad];
    DecodeTwoOf(v0, v1, v2);
  }

  /** Decoding the encoding of any byte sequence, the empty one included,
      gives that sequence back. */
  lemma {:induction false} DecodeEncode(s: seq<byte>)
    ensures Decode(Encode(s)) == Some(s)
    decreases |s|
  {
    PadIsNotAlphabet();
    if |s| == 0 {
    } else if |s| == 1 {
      OneRoundTrip(s[0]);
      assert s == [s[0]];
    } else if |s| == 2 {
      TwoRoundTrip(s[0], s[1]);
      assert s == [s[0], s[1]];
    } else {
      QuantumRoundTrip(s[0], s[1], s[2]);
      assert [s[0], s[1], s[2]] == s[..3];
      DecodeEncode(s[3..]);
      assert Encode(s) == EncodeQuantum(s[0], s[1], s[2]) + Encode(s[3..]);
      DecodeAppend(EncodeQuantum(s[0], s[1], s[2]), Encode(s[3..]), s[..3], s[3..]);
      assert s == s[..3] + s[3..];
    }
  }

  /** Decode reads a non-final group and then the rest. */
  lemma DecodeCons(e: seq<byte>, q: seq<byte>, rest: seq<byte>)
    requires |e| > 4 && |e| % 4 == 0
    requires DecodeQuantum(e[0], e[1], e[2], e[3]) == Some(q)
    requires Decode(e[4..]) == Some(rest)
    ensures Decode(e) == Some(q + rest)
  {
  }

  /** Decode reads a full group in front of a (possibly empty) canonical text. */
  lemma DecodeAppend(q: seq<byte>, rest: seq<byte>, b: seq<byte>, bs: seq<byte>)
    requires |q| == 4 && DecodeQuantum(q[0], q[1], q[2], q[3]) == Some(b)
    requires |rest| % 4 == 0 && Decode(rest) == Some(bs)
    ensures Decode(q + rest) == Some(b + bs)
  {
    if rest == [] {
      assert q + rest == q && b + bs == b;
      DecodeLastQuantum(q, b);
    } else {
      var e := q + rest;
      Mod4Step(|rest|);
      assert e[0] == q[0] && e[1] == q[1] && e[2] == q[2] && e[3] == q[3];
      assert e[4..] == rest;
      DecodeCons(e, b, bs);
    }
  }

  /** A last group without padding is read as a full group. */
  lemma DecodeLastQuantum(q: seq<byte>, b: seq<byte>)
    requires |q| == 4 && DecodeQuantum(q[0], q[1], q[2], q[3]) == Some(b)
    ensures Decode(q) == Some(b)
  {
    PadIsNotAlphabet();
  }

  /** Re-encoding the bytes read from four sextets gives the sextets back. */
  lemma SextetArith(v0: Sextet, v1: Sextet, v2: Sextet, v3: Sextet)
    ensures var x, y, z := v0 * 4 + v1 / 16, (v1 % 16) * 16 + v2 / 4, (v2 % 4) * 64 + v3;
      0 <= x < 256 && 0 <= y < 256 && 0 <= z < 256 &&
      x / 4 == v0 && (x % 4) * 16 + y / 16 == v1 && (y % 16) * 4 + z / 64 == v2 && z % 64 == v3 &&
      (v1 % 16 == 0 ==> (x % 4) * 16 == v1) &&
      (v2 % 4 == 0 ==> (y % 16) * 4 == v2)
  {
    var x: int, y: int, z: int := v0 * 4 + v1 / 16, (v1 % 16) * 16 + v2 / 4, (v2 % 4) * 64 + v3;
    assert x / 4 == v0 && x % 4 == v1 / 16;
    assert y / 16 == v1 % 16 && y % 16 == v2 / 4;
    assert z / 64 == v2 % 4 && z % 64 == v3;
  }

  /** Encoding the three bytes read from four sextets gives their characters. */
  lemma EncodeSextets(v0: Sextet, v1: Sextet, v2: Sextet, v3: Sextet)
    ensures var x, y, z := v0 * 4 + v1 / 16, (v1 % 16) * 16 + v2 / 4, (v2 % 4) * 64 + v3;
      0 <= x < 256 && 0 <= y < 256 && 0 <= z < 256 &&
      EncodeQuantum(x, y, z) == [CharOf(v0), CharOf(v1), CharOf(v2), CharOf(v3)]
  {
    SextetArith(v0, v1, v2, v3);
  }

  lemma QuantumInverse(c0: byte, c1: byte, c2: byte, c3: byte, b: seq<byte>)
    requires DecodeQuantum(c0, c1, c2, c3) == Some(b)
    ensures |b| == 3 && EncodeQuantum(b[0], b[1], b[2]) == [c0, c1, c2, c3]
  {
    assert IsAlphabetChar(c0) && IsAlphabetChar(c1) && IsAlphabetChar(c2) && IsAlphabetChar(c3);
    var v0, v1, v2, v3 := SextetOf(c0), SextetOf(c1), SextetOf(c2), SextetOf(c3);
    EncodeSextets(v0, v1, v2, v3);
    var w0, w1, w2, w3: int := v0, v1, v2, v3;
    assert b == [w0 * 4 + w1 / 16, (w1 % 16) * 16 + w2 / 4, (w2 % 4) * 64 + w3];
  }

  /** Encoding the byte read from two sextets with zero unused bits gives their characters. */
  lemma EncodeOneOf(v0: Sextet, v1: Sextet)
    requires v1 % 16 == 0
    ensures var x := v0 * 4 + v1 / 16;
      0 <= x < 256 && EncodeOne(x) == [CharOf(v0), CharOf(v1), Pad, Pad]
  {
    SextetArith(v0, v1, 0, 0);
  }

  /** Encoding the two bytes read from three sextets with zero unused bits gives their characters. */
  lemma EncodeTwoOf(v0: Sextet, v1: Sextet, v2: Sextet)
    requires v2 % 4 == 0
    ensures var x, y := v0 * 4 + v1 / 16, (v1 % 16) * 16 + v2 / 4;
      0 <= x < 256 && 0 <= y < 256 && EncodeTwo(x, y) == [CharOf(v0), CharOf(v1), CharOf(v2), Pad]
  {
    SextetArith(v0, v1, v2, 0);
  }

  /** A final group with two `=` re-encodes from the one byte it holds. */
  lemma OnePadInverse(c0: byte, c1: byte, b: seq<byte>)
    requires DecodeFinal(c0, c1, Pad, Pad) == Some(b)
    ensures Encode(b) == [c0, c1, Pad, Pad]
  {
    var v0, v1 := SextetOf(c0), SextetOf(c1);
    EncodeOneOf(v0, v1);
    var w0, w1: int := v0, v1;
    assert b == [w0 * 4 + w1 / 16];
    assert Encode(b) == EncodeOne(b[0]);
  }

  /** A final group with one `=` re-encodes from the two bytes it holds. */
  lemma TwoPadInverse(c0: byte, c1: byte, c2: byte, b: seq<byte>)
    requires IsAlphabetChar(c2) && DecodeFinal(c0, c1, c2, Pad) == Some(b)
    ensures Encode(b) == [c0, c1, c2, Pad]
  {
    PadIsNotAlphabet();
    var v0, v1, v2 := SextetOf(c0), SextetOf(c1), SextetOf(c2);
    EncodeTwoOf(v0, v1, v2);
    var w0, w1, w2: int := v0, v1, v2;
    assert b == [w0 * 4 + w1 / 16, (w1 % 16) * 16 + w2 / 4];
    assert Encode(b) == EncodeTwo(b[0], b[1]);
  }

  lemma FinalInverse(c0: byte, c1: byte, c2: byte, c3: byte, b: seq<byte>)
    requires DecodeFinal(c0, c1, c2, c3) == Some(b)
    ensures Encode(b) == [c0, c1, c2, c3]
  {
    PadIsNotAlphabet();
    if c2 == Pad && c3 == Pad {
      OnePadInverse(c0, c1, b);
    } else if IsAlphabetChar(c2) && c3 == Pad {
      TwoPadInverse(c0, c1, c2, b);
    } else {
      QuantumInverse(c0, c1, c2, c3, b);
      assert b == [b[0], b[1], b[2]] + [];
    }
  }

  /** Only the canonical encoding is decoded: whatever Decode accepts is the
      encoding of what it returns. */
  lemma {:induction false} EncodeDecode(s: seq<byte>, b: seq<byte>)
    requires Decode(s) == Some(b)
    ensures Encode(b) == s
    decreases |s|
  {
    if |s| == 0 {
    } else if |s| == 4 {
      FinalInverse(s[0], s[1], s[2], s[3], b);
      assert s == [s[0], s[1], s[2], s[3]];
    } else {
      DecodeSplit(s);
      var q := DecodeQuantum(s[0], s[1], s[2], s[3]).value;
      var rest := Decode(s[4..]).value;
      EncodeDecode(s[4..], rest);
      GroupInverse(s, q, rest);
    }
  }

  /** A decoded leading group re-encodes to the text's first four characters. */
  lemma GroupInverse(s: seq<byte>, q: seq<byte>, rest: seq<byte>)
    requires |s| > 4 && DecodeQuantum(s[0], s[1], s[2], s[3]) == Some(q)
    requires Encode(rest) == s[4..]
    ensures Encode(q + rest) == s
  {
    QuantumInverse(s[0], s[1], s[2], s[3], q);
    EncodeCons(q, rest);
    assert s == [s[0], s[1], s[2], s[3]] + s[4..];
  }

  /** What Decode accepts beyond one group is a full group and then the rest. */
  lemma DecodeSplit(s: seq<byte>)
    requires |s| > 4 && Decode(s).Some?
    ensures DecodeQuantum(s[0], s[1], s[2], s[3]).Some? && Decode(s[4..]).Some?
    ensures Decode(s).value == DecodeQuantum(s[0], s[1], s[2], s[3]).value + Decode(s[4..]).value
  {
  }

  /** Encoding three bytes in front of more bytes encodes them as one group first. */
  lemma EncodeCons(q: seq<byte>, rest: seq<byte>)
    requires |q| == 3
    ensures Encode(q + rest) == EncodeQuantum(q[0], q[1], q[2]) + Encode(rest)
  {
    var b := q + rest;
    assert b[0] == q[0] && b[1] == q[1] && b[2] == q[2];
    assert b[3..] == rest;
  }

  /** Encode and Decode are inverse: s decodes to b exactly when s is the
      encoding of b. */
  lemma DecodeIffEncode(s: seq<byte>, b: seq<byte>)
    ensures Decode(s) == Some(b) <==> Encode(b) == s
  {
    if Decode(s) == Some(b) {
      EncodeDecode(s, b);
    }
    if Encode(b) == s {
      DecodeEncode(b);
    }
  }

  /** The test vectors of section 10 of RFC 4648, as bytes: "" gives "". */
  lemma VectorEmpty()
    ensures Encode([]) == []
  {
  }

  /** "f" gives "Zg==". */
  lemma VectorF()
    ensures Encode([102]) == [90, 103, 61, 61]
  {
  }

  /** "fo" gives "Zm8=". */
  lemma VectorFo()
    ensures Encode([102, 111]) == [90, 109, 56, 61]
  {
  }

  /** "foo" gives "Zm9v": its sextets are 25, 38, 61 and 47. */
  lemma VectorFoo()
    ensures EncodeQuantum(102, 111, 111) == [90, 109, 57, 118]
    ensures Encode([102, 111, 111]) == [90, 109, 57, 118]
  {
    assert 102 / 4 == 25 && (102 % 4) * 16 + 111 / 16 == 38;
    assert (111 % 16) * 4 + 111 / 64 == 61 && 111 % 64 == 47;
    assert CharOf(25) == 90 && CharOf(38) == 109 && CharOf(61) == 57 && CharOf(47) == 118;
    assert Encode([102, 111, 111]) == EncodeQuantum(102, 111, 111) + Encode([]);
  }

  /** Bytes after "foo" are encoded after its group "Zm9v". */
  lemma AfterFoo(rest: seq<byte>)
    ensures Encode([102, 111, 111] + rest) == [90, 109, 57, 118] + Encode(rest)
  {
    VectorFoo();
    EncodeCons([102, 111, 111], rest);
  }

  /** "foob" gives "Zm9vYg==". */
  lemma VectorFoob()
    ensures Encode([102, 111, 111, 98]) == [90, 109, 57, 118, 89, 103, 61, 61]
  {
    AfterFoo([98]);
    assert [102, 111, 111] + [98] == [102, 111, 111, 98];
  }

  /** "fooba" gives "Zm9vYmE=". */
  lemma VectorFooba()
    ensures Encode([102, 111, 111, 98, 97]) == [90, 109, 57, 118, 89, 109, 69, 61]
  {
    AfterFoo([98, 97]);
    VectorBa();
    assert [102, 111, 111] + [98, 97] == [102, 111, 111, 98, 97];
  }

  /** "foobar" gives "Zm9vYmFy". */
  lemma VectorFoobar()
    ensures Encode([102, 111, 111, 98, 97, 114]) == [90, 109, 57, 118, 89, 109, 70, 121]
  {
    AfterFoo([98, 97, 114]);
    VectorBar();
    assert [102, 111, 111] + [98, 97, 114] == [102, 111, 111, 98, 97, 114];
  }

  /** "ba" gives "YmE=": its sextets are 24, 38 and 4. */
  lemma VectorBa()
    ensures Encode([98, 97]) == [89, 109, 69, 61]
  {
    assert 98 / 4 == 24 && (98 % 4) * 16 + 97 / 16 == 38 && (97 % 16) * 4 == 4;
    assert CharOf(24) == 89 && CharOf(38) == 109 && CharOf(4) == 69;
  }

  /** "bar" gives "YmFy": its sextets are 24, 38, 5 and 50. */
  lemma VectorBar()
    ensures Encode([98, 97, 114]) == [89, 109, 70, 121]
  {
    assert 98 / 4 == 24 && (98 % 4) * 16 + 97 / 16 == 38;
    assert (97 % 16) * 4 + 114 / 64 == 5 && 114 % 64 == 50;
    assert CharOf(24) == 89 && CharOf(38) == 109 && CharOf(5) == 70 && CharOf(50) == 121;
    assert Encode([98, 97, 114]) == EncodeQuantum(98, 97, 114) + Encode([]);
  }

  /** Non-zero bits under the padding are rejected: "Zh==" is not canonical. */
  lemma RejectsUnusedBits()
    ensures Decode([90, 104, 61, 61]) == None
  {
  }

  /** r is alphabet characters followed by exactly p `=` characters. */
  ghost predicate PaddedText(r: seq<byte>, p: nat) {
    p <= |r| &&
    forall i | 0 <= i < |r| :: if i < |r| - p then IsAlphabetChar(r[i]) else r[i] == Pad
  }

  /** An encoding is alphabet characters followed by exactly PadCount `=`. */
  lemma {:induction false} EncodeShape(s: seq<byte>)
    ensures PaddedText(Encode(s), PadCount(|s|))
    decreases |s|
  {
    PadIsNotAlphabet();
    if |s| >= 3 {
      EncodeShape(s[3..]);
      var q, rest := EncodeQuantum(s[0], s[1], s[2]), Encode(s[3..]);
      var r := Encode(s);
      assert r == q + rest;
      assert PadCount(|s|) == PadCount(|s| - 3);
      forall i | 0 <= i < |r|
        ensures if i < |r| - PadCount(|s|) then IsAlphabetChar(r[i]) else r[i] == Pad
      {
        if i >= 4 {
          assert r[i] == rest[i - 4];
          assert i - 4 < |rest| - PadCount(|s| - 3) <==> i < |r| - PadCount(|s|);
          assert PaddedText(rest, PadCount(|s| - 3));
        } else {
          assert r[i] == q[i] && IsAlphabetChar(q[i]);
        }
      }
    }
  }
}
