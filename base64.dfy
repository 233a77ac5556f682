/** Octets, as Python's bytes hold them. */
module Bytes {
  type byte = x: int | 0 <= x < 256
}

/**
 * The base64 encoding of section 4 of RFC 4648 with its padding, as
 * base64.b64decode applies it to the token the key patterns capture.  The
 * decoder accepts exactly the canonical encodings (RFC 4648 section 3.5: unused bits
 * of the last group are zero), so it is the inverse of the encoder.
 */
module Base64 {
  import opened Wrappers
  import opened Bytes
  import opened Chars

  type sextet = x: int | 0 <= x < 64

  /** The character of the base64 alphabet (Table 1) for a 6-bit value. */
  function SextetChar(v: sextet): (c: char)
    ensures IsBase64Char(c) && c != '='
  {
    if v < 26 then ('A' as int + v) as char
    else if v < 52 then ('a' as int + (v - 26)) as char
    else if v < 62 then ('0' as int + (v - 52)) as char
    else if v == 62 then '+'
    else '/'
  }

  /** The 6-bit value of an alphabet character; None for '=' and for every
      character outside the alphabet. */
  function CharSextet(c: char): (r: Option<sextet>)
    ensures r.Some? <==> IsBase64Char(c) && c != '='
  {
    if 'A' <= c <= 'Z' then Some(c as int - 'A' as int)
    else if 'a' <= c <= 'z' then Some(c as int - 'a' as int + 26)
    else if '0' <= c <= '9' then Some(c as int - '0' as int + 52)
    else if c == '+' then Some(62)
    else if c == '/' then Some(63)
    else None
  }

  lemma SextetCharInverse(v: sextet)
    ensures CharSextet(SextetChar(v)) == Some(v)
  {
  }

  lemma CharSextetInverse(c: char)
    requires CharSextet(c).Some?
    ensures SextetChar(CharSextet(c).value) == c
  {
  }

  /** Three octets become four characters (RFC 4648 section 4). */
  function EncodeGroup(b0: byte, b1: byte, b2: byte): string {
    [SextetChar(b0 / 4), SextetChar(b0 % 4 * 16 + b1 / 16),
     SextetChar(b1 % 16 * 4 + b2 / 64), SextetChar(b2 % 64)]
  }

  /** base64.b64encode, as text. */
  function Encode(b: seq<byte>): (s: string)
    decreases |b|
    ensures |s| == (|b| + 2) / 3 * 4
    ensures forall k :: 0 <= k < |s| ==> IsBase64Char(s[k])
  {
    if |b| == 0 then []
    else if |b| == 1 then [SextetChar(b[0] / 4), SextetChar(b[0] % 4 * 16), '=', '=']
    else if |b| == 2 then
      [SextetChar(b[0] / 4), SextetChar(b[0] % 4 * 16 + b[1] / 16), SextetChar(b[1] % 16 * 4), '=']
    else EncodeGroup(b[0], b[1], b[2]) + Encode(b[3..])
  }

  /** Four characters without padding give three octets. */
  function DecodeFull(q: string): Option<seq<byte>>
    requires |q| == 4
  {
    var c0, c1, c2, c3 := CharSextet(q[0]), CharSextet(q[1]), CharSextet(q[2]), CharSextet(q[3]);
    if c0.None? || c1.None? || c2.None? || c3.None? then None
    else Some([c0.value * 4 + c1.value / 16, c1.value % 16 * 16 + c2.value / 4, c2.value % 4 * 64 + c3.value])
  }

  /** The last group, which may end in "==" (one octet) or "=" (two). */
  function DecodeLast(q: string): Option<seq<byte>>
    requires |q| == 4
  {
    var c0, c1, c2 := CharSextet(q[0]), CharSextet(q[1]), CharSextet(q[2]);
    if c0.None? || c1.None? then None
    else if q[2] == '=' && q[3] == '=' then
      if c1.value % 16 == 0 then Some([c0.value * 4 + c1.value / 16]) else None
    else if c2.None? then None
    else if q[3] == '=' then
      if c2.value % 4 == 0 then Some([c0.value * 4 + c1.value / 16, c1.value % 16 * 16 + c2.value / 4])
      else None
    else DecodeFull(q)
  }

  /** base64.b64decode on canonical padded input; None where the input is not
      a canonical encoding. */
  function Decode(s: string): (r: Option<seq<byte>>)
    decreases |s|
    ensures r.Some? ==> |s| % 4 == 0 && (|r.value| + 2) / 3 * 4 == |s|
  {
    if s == [] then Some([])
    else if |s| < 4 then None
    else if |s| == 4 then DecodeLast(s)
    else
      match DecodeFull(s[..4])
      case None => None
      case Some(g) =>
        match Decode(s[4..])
        case None => None
        case Some(rest) => Some(g + rest)
  }

  /** What DecodeFull yields, given the values of the four characters. */
  lemma DecodeFullOf(q: string, v0: sextet, v1: sextet, v2: sextet, v3: sextet)
    requires |q| == 4
    requires CharSextet(q[0]) == Some(v0) && CharSextet(q[1]) == Some(v1)
    requires CharSextet(q[2]) == Some(v2) && CharSextet(q[3]) == Some(v3)
    ensures DecodeFull(q) == Some([v0 * 4 + v1 / 16, v1 % 16 * 16 + v2 / 4, v2 % 4 * 64 + v3])
  {
  }

  /** The bit regrouping of Figure 1 is undone by the decoder's. */
  lemma GroupArithmetic(b0: byte, b1: byte, b2: byte)
    ensures var v1 := b0 % 4 * 16 + b1 / 16; var v2 := b1 % 16 * 4 + b2 / 64;
      && b0 / 4 * 4 + v1 / 16 == b0
      && v1 % 16 * 16 + v2 / 4 == b1
      && v2 % 4 * 64 + b2 % 64 == b2
  {
  }

  lemma GroupRoundTrip(b0: byte, b1: byte, b2: byte)
    ensures DecodeFull(EncodeGroup(b0, b1, b2)) == Some([b0, b1, b2])
  {
    var v0, v1, v2, v3 := b0 / 4, b0 % 4 * 16 + b1 / 16, b1 % 16 * 4 + b2 / 64, b2 % 64;
    SextetCharInverse(v0);
    SextetCharInverse(v1);
    SextetCharInverse(v2);
    SextetCharInverse(v3);
    DecodeFullOf(EncodeGroup(b0, b1, b2), v0, v1, v2, v3);
    GroupArithmetic(b0, b1, b2);
  }

  /** The padded last groups, given the values of their characters. */
  lemma DecodeLastOf(q: string, v0: sextet, v1: sextet, v2: sextet)
    requires |q| == 4
    requires CharSextet(q[0]) == Some(v0) && CharSextet(q[1]) == Some(v1)
    ensures q[2] == '=' && q[3] == '=' ==>
      DecodeLast(q) == if v1 % 16 == 0 then Some([v0 * 4 + v1 / 16]) else None
    ensures CharSextet(q[2]) == Some(v2) && q[3] == '=' ==>
      DecodeLast(q) == if v2 % 4 == 0 then Some([v0 * 4 + v1 / 16, v1 % 16 * 16 + v2 / 4]) else None
    ensures q[2] != '=' && q[3] != '=' ==> DecodeLast(q) == DecodeFull(q)
  {
  }

  /** Bit regrouping for one and for two trailing octets, both ways. */
  lemma TailArithmetic(b0: byte, b1: byte, v0: sextet, v1: sextet, v2: sextet)
    ensures var w := b0 % 4 * 16; w % 16 == 0 && b0 / 4 * 4 + w / 16 == b0
    ensures var w1, w2 := b0 % 4 * 16 + b1 / 16, b1 % 16 * 4;
      w2 % 4 == 0 && b0 / 4 * 4 + w1 / 16 == b0 && w1 % 16 * 16 + w2 / 4 == b1
    ensures v1 % 16 == 0 ==> var c0 := v0 * 4 + v1 / 16; c0 / 4 == v0 && c0 % 4 * 16 == v1
    ensures v2 % 4 == 0 ==> var c0, c1 := v0 * 4 + v1 / 16, v1 % 16 * 16 + v2 / 4;
      c0 / 4 == v0 && c0 % 4 * 16 + c1 / 16 == v1 && c1 % 16 * 4 == v2
  {
  }

  lemma DecodeEncodeOne(b: seq<byte>)
    requires |b| == 1
    ensures Decode(Encode(b)) == Some(b)
  {
    var s := Encode(b);
    var v0, v1 := b[0] / 4, b[0] % 4 * 16;
    SextetCharInverse(v0);
    SextetCharInverse(v1);
    assert s == [SextetChar(v0), SextetChar(v1), '=', '='];
    DecodeLastOf(s, v0, v1, 0);
    TailArithmetic(b[0], 0, 0, 0, 0);
    assert Decode(s) == DecodeLast(s);
    assert b == [b[0]];
  }

  lemma DecodeEncodeTwo(b: seq<byte>)
    requires |b| == 2
    ensures Decode(Encode(b)) == Some(b)
  {
    assert b == [b[0], b[1]];
    TwoOctetsRoundTrip(b[0], b[1]);
  }

  lemma TwoOctetsRoundTrip(b0: byte, b1: byte)
    ensures Decode(Encode([b0, b1])) == Some([b0, b1])
  {
    var v0, v1, v2 := b0 / 4, b0 % 4 * 16 + b1 / 16, b1 % 16 * 4;
    var s := [SextetChar(v0), SextetChar(v1), SextetChar(v2), '='];
    EncodeTwoOf(b0, b1);
    SextetCharInverse(v0);
    SextetCharInverse(v1);
    SextetCharInverse(v2);
    DecodeLastOf(s, v0, v1, v2);
    TailArithmetic(b0, b1, 0, 0, 0);
    assert Decode(s) == DecodeLast(s);
  }

  lemma DecodeEncodeThree(b: seq<byte>)
    requires |b| == 3
    ensures Decode(Encode(b)) == Some(b)
  {
    EncodeOneGroup(b);
    GroupDecodes(b[0], b[1], b[2]);
    assert b == [b[0], b[1], b[2]];
  }

  /** One group on its own decodes to its three octets. */
  lemma GroupDecodes(b0: byte, b1: byte, b2: byte)
    ensures Decode(EncodeGroup(b0, b1, b2)) == Some([b0, b1, b2])
  {
    GroupRoundTrip(b0, b1, b2);
    GroupUnpadded(b0, b1, b2);
    UnpaddedLast(EncodeGroup(b0, b1, b2));
  }

  lemma GroupUnpadded(b0: byte, b1: byte, b2: byte)
    ensures var q := EncodeGroup(b0, b1, b2); |q| == 4 && q[2] != '=' && q[3] != '='
  {
  }

  lemma EncodeOneGroup(b: seq<byte>)
    requires |b| == 3
    ensures Encode(b) == EncodeGroup(b[0], b[1], b[2])
  {
    assert Encode(b[3..]) == [];
  }

  /** A single group without padding decodes as a full group. */
  lemma UnpaddedLast(q: string)
    requires |q| == 4 && q[2] != '=' && q[3] != '='
    ensures Decode(q) == DecodeFull(q)
  {
  }

  /** Decoding undoes encoding. */
  lemma {:induction false} DecodeEncode(b: seq<byte>)
    ensures Decode(Encode(b)) == Some(b)
  {
    if |b| == 1 {
      DecodeEncodeOne(b);
    } else if |b| == 2 {
      DecodeEncodeTwo(b);
    } else if |b| == 3 {
      DecodeEncodeThree(b);
    } else if |b| > 3 {
      DecodeEncode(b[3..]);
      DecodeEncodeStep(b);
    }
  }

  /** One full group in front of a tail that round-trips. */
  lemma DecodeEncodeStep(b: seq<byte>)
    requires |b| > 3 && Decode(Encode(b[3..])) == Some(b[3..])
    ensures Decode(Encode(b)) == Some(b)
  {
    var head: seq<byte> := [b[0], b[1], b[2]];
    SplitHead(b);
    var g, t := EncodeGroup(b[0], b[1], b[2]), Encode(b[3..]);
    GroupRoundTrip(b[0], b[1], b[2]);
    DecodeConcat(g, t, head, b[3..]);
  }

  lemma SplitHead(b: seq<byte>)
    requires |b| > 3
    ensures [b[0], b[1], b[2]] + b[3..] == b
  {
  }

  /** A full group followed by a non-empty decodable tail. */
  lemma DecodeConcat(g: string, t: string, x: seq<byte>, y: seq<byte>)
    requires |g| == 4 && |t| > 0 && DecodeFull(g) == Some(x) && Decode(t) == Some(y)
    ensures Decode(g + t) == Some(x + y)
  {
    assert (g + t)[..4] == g;
    assert (g + t)[4..] == t;
  }

  /** The decoder's bit regrouping is undone by that of Figure 1. */
  lemma SextetArithmetic(v0: sextet, v1: sextet, v2: sextet, v3: sextet, b0: byte, b1: byte, b2: byte)
    requires b0 == v0 * 4 + v1 / 16 && b1 == v1 % 16 * 16 + v2 / 4 && b2 == v2 % 4 * 64 + v3
    ensures b0 / 4 == v0 && b0 % 4 * 16 + b1 / 16 == v1
    ensures b1 % 16 * 4 + b2 / 64 == v2 && b2 % 64 == v3
  {
  }

  /** Encoding the octets the decoder builds from four values gives back
      the characters of those values. */
  lemma EncodeGroupOf(v0: sextet, v1: sextet, v2: sextet, v3: sextet, b0: byte, b1: byte, b2: byte)
    requires b0 == v0 * 4 + v1 / 16 && b1 == v1 % 16 * 16 + v2 / 4 && b2 == v2 % 4 * 64 + v3
    ensures EncodeGroup(b0, b1, b2) == [SextetChar(v0), SextetChar(v1), SextetChar(v2), SextetChar(v3)]
  {
    SextetArithmetic(v0, v1, v2, v3, b0, b1, b2);
  }

  lemma FullGroupInverse(q: string)
    requires |q| == 4 && DecodeFull(q).Some?
    ensures var g := DecodeFull(q).value; EncodeGroup(g[0], g[1], g[2]) == q
  {
    DecodedChars(q);
    var v0, v1 := CharSextet(q[0]).value, CharSextet(q[1]).value;
    var v2, v3 := CharSextet(q[2]).value, CharSextet(q[3]).value;
    DecodeFullOf(q, v0, v1, v2, v3);
    var g := DecodeFull(q).value;
    FullGroupChars(q, v0, v1, v2, v3, g[0], g[1], g[2]);
  }

  lemma DecodedChars(q: string)
    requires |q| == 4 && DecodeFull(q).Some?
    ensures CharSextet(q[0]).Some? && CharSextet(q[1]).Some? && CharSextet(q[2]).Some? && CharSextet(q[3]).Some?
  {
  }

  /** The octets decoded from four characters encode back to them. */
  lemma FullGroupChars(q: string, v0: sextet, v1: sextet, v2: sextet, v3: sextet, b0: byte, b1: byte, b2: byte)
    requires |q| == 4
    requires CharSextet(q[0]) == Some(v0) && CharSextet(q[1]) == Some(v1)
    requires CharSextet(q[2]) == Some(v2) && CharSextet(q[3]) == Some(v3)
    requires b0 == v0 * 4 + v1 / 16 && b1 == v1 % 16 * 16 + v2 / 4 && b2 == v2 % 4 * 64 + v3
    ensures EncodeGroup(b0, b1, b2) == q
  {
    EncodeGroupOf(v0, v1, v2, v3, b0, b1, b2);
    CharSextetInverse(q[0]);
    CharSextetInverse(q[1]);
    CharSextetInverse(q[2]);
    CharSextetInverse(q[3]);
    FourChars(q);
  }

  lemma LastGroupInverse(q: string, b: seq<byte>)
    requires |q| == 4 && DecodeLast(q) == Some(b)
    ensures Encode(b) == q
  {
    var v0, v1 := CharSextet(q[0]).value, CharSextet(q[1]).value;
    if q[2] == '=' && q[3] == '=' {
      OneOctetInverse(q, b, v0, v1);
    } else if q[3] == '=' {
      TwoOctetsInverse(q, b, v0, v1, CharSextet(q[2]).value);
    } else {
      DecodeLastOf(q, v0, v1, 0);
      FullGroupInverse(q);
      assert Encode(b) == EncodeGroup(b[0], b[1], b[2]) + Encode([]);
    }
  }

  lemma OneOctetInverse(q: string, b: seq<byte>, v0: sextet, v1: sextet)
    requires |q| == 4 && q[2] == '=' && q[3] == '=' && DecodeLast(q) == Some(b)
    requires CharSextet(q[0]) == Some(v0) && CharSextet(q[1]) == Some(v1)
    ensures Encode(b) == q
  {
    DecodeLastOf(q, v0, v1, 0);
    assert v1 % 16 == 0 && b == [v0 * 4 + v1 / 16];
    TailArithmetic(0, 0, v0, v1, 0);
    CharSextetInverse(q[0]);
    CharSextetInverse(q[1]);
    assert Encode(b) == [SextetChar(v0), SextetChar(v1), '=', '='];
  }

  lemma TwoOctetsInverse(q: string, b: seq<byte>, v0: sextet, v1: sextet, v2: sextet)
    requires |q| == 4 && q[2] != '=' && q[3] == '=' && DecodeLast(q) == Some(b)
    requires CharSextet(q[0]) == Some(v0) && CharSextet(q[1]) == Some(v1)
    requires CharSextet(q[2]) == Some(v2)
    ensures Encode(b) == q
  {
    DecodeLastOf(q, v0, v1, v2);
    var c0: byte, c1: byte := v0 * 4 + v1 / 16, v1 % 16 * 16 + v2 / 4;
    assert v2 % 4 == 0 && b == [c0, c1];
    TailArithmetic(0, 0, v0, v1, v2);
    EncodeTwoOf(c0, c1);
    CharSextetInverse(q[0]);
    CharSextetInverse(q[1]);
    CharSextetInverse(q[2]);
    FourChars(q);
  }

  /** The encoding of two octets, spelled out. */
  lemma EncodeTwoOf(c0: byte, c1: byte)
    ensures Encode([c0, c1]) == [SextetChar(c0 / 4), SextetChar(c0 % 4 * 16 + c1 / 16), SextetChar(c1 % 16 * 4), '=']
  {
  }

  lemma FourChars(q: string)
    requires |q| == 4
    ensures q == [q[0], q[1], q[2], q[3]]
  {
  }

  /** Whatever decodes is the encoding of what it decodes to: the decoder
      accepts no second spelling of the same octets. */
  lemma {:induction false} EncodeDecode(s: string, b: seq<byte>)
    requires Decode(s) == Some(b)
    ensures Encode(b) == s
  {
    if |s| == 4 {
      LastGroupInverse(s, b);
    } else if |s| > 4 {
      var g := DecodeFull(s[..4]).value;
      var rest := Decode(s[4..]).value;
      assert b == g + rest;
      FullGroupInverse(s[..4]);
      EncodeDecode(s[4..], rest);
      assert |rest| > 0;
      assert b[3..] == rest;
      assert s == s[..4] + s[4..];
    }
  }
}
