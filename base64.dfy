/** The base64 encoding of section 4 of RFC 4648: the 64-character alphabet of
    its Table 1, groups of three octets written as four characters, and `=`
    padding for a final group of one or two octets. */
module Base64 {
  import opened Wrappers
  import opened Bytes

  /** The character for a 6-bit value, after Table 1 of RFC 4648. */
  function CharOf(v: int): (c: char)
    requires 0 <= v < 64
    ensures ValueOf(c) == Some(v)
  {
    if v < 26 then (65 + v) as char
    else if v < 52 then (97 + v - 26) as char
    else if v < 62 then (48 + v - 52) as char
    else if v == 62 then '+'
    else '/'
  }

  /** The 6-bit value of an alphabet character; None for any other character,
      padding `=` included. */
  function ValueOf(c: char): (r: Option<int>)
    ensures r.Some? ==> 0 <= r.value < 64
  {
    if 'A' <= c <= 'Z' then Some(c as int - 65)
    else if 'a' <= c <= 'z' then Some(c as int - 97 + 26)
    else if '0' <= c <= '9' then Some(c as int - 48 + 52)
    else if c == '+' then Some(62)
    else if c == '/' then Some(63)
    else None
  }

  predicate InAlphabet(c: char) {
    ValueOf(c).Some?
  }

  function Encode(b: seq<byte>): (s: string)
    ensures |s| == 4 * ((|b| + 2) / 3)
    ensures forall i :: 0 <= i < |s| ==> InAlphabet(s[i]) || s[i] == '='
  {
    if |b| == 0 then ""
    else if |b| == 1 then
      [CharOf(b[0] / 4), CharOf((b[0] % 4) * 16), '=', '=']
    else if |b| == 2 then
      [CharOf(b[0] / 4), CharOf((b[0] % 4) * 16 + b[1] / 16), CharOf((b[1] % 16) * 4), '=']
    else
      [CharOf(b[0] / 4), CharOf((b[0] % 4) * 16 + b[1] / 16),
       CharOf((b[1] % 16) * 4 + b[2] / 64), CharOf(b[2] % 64)] + Encode(b[3..])
  }

  /** Four alphabet characters without padding: three octets. */
  function DecodeFull(c0: char, c1: char, c2: char, c3: char): (r: Option<seq<byte>>)
    ensures r.Some? ==> |r.value| == 3
  {
    match (ValueOf(c0), ValueOf(c1), ValueOf(c2), ValueOf(c3))
    case (Some(v0), Some(v1), Some(v2), Some(v3)) =>
      Some([v0 * 4 + v1 / 16, (v1 % 16) * 16 + v2 / 4, (v2 % 4) * 64 + v3])
    case _ => None
  }

  /** The last group, which may end in one or two `=`. The bits below the
      last octet are not checked, as Python's decoder does not check them. */
  function DecodeFinal(c0: char, c1: char, c2: char, c3: char): (r: Option<seq<byte>>)
    ensures r.Some? ==> 1 <= |r.value| <= 3
  {
    if c2 == '=' && c3 == '=' then
      match (ValueOf(c0), ValueOf(c1))
      case (Some(v0), Some(v1)) => Some([v0 * 4 + v1 / 16])
      case _ => None
    else if c3 == '=' then
      match (ValueOf(c0), ValueOf(c1), ValueOf(c2))
      case (Some(v0), Some(v1), Some(v2)) => Some([v0 * 4 + v1 / 16, (v1 % 16) * 16 + v2 / 4])
      case _ => None
    else DecodeFull(c0, c1, c2, c3)
  }

  /** Strict decoding: the length must be a multiple of four, every character
      must be in the alphabet, and `=` may appear only at the end. */
  function Decode(s: string): (r: Option<seq<byte>>)
    ensures r.Some? ==> |s| % 4 == 0 && |r.value| <= 3 * (|s| / 4)
    decreases |s|
  {
    if |s| == 0 then Some([])
    else if |s| < 4 then None
    else if |s| == 4 then DecodeFinal(s[0], s[1], s[2], s[3])
    else
      match DecodeFull(s[0], s[1], s[2], s[3])
      case None => None
      case Some(group) =>
        match Decode(s[4..])
        case None => None
        case Some(rest) => Some(group + rest)
  }

  lemma DecodeGroup(b0: byte, b1: byte, b2: byte)
    ensures DecodeFull(CharOf(b0 / 4), CharOf((b0 % 4) * 16 + b1 / 16),
                       CharOf((b1 % 16) * 4 + b2 / 64), CharOf(b2 % 64)) == Some([b0, b1, b2])
  {
    assert ((b0 % 4) * 16 + b1 / 16) / 16 == b0 % 4;
    assert ((b0 % 4) * 16 + b1 / 16) % 16 == b1 / 16;
    assert ((b1 % 16) * 4 + b2 / 64) / 4 == b1 % 16;
    assert ((b1 % 16) * 4 + b2 / 64) % 4 == b2 / 64;
  }

  lemma DecodeLastOne(b0: byte)
    ensures DecodeFinal(CharOf(b0 / 4), CharOf((b0 % 4) * 16), '=', '=') == Some([b0])
  {
    assert ((b0 % 4) * 16) / 16 == b0 % 4;
  }

  lemma DecodeLastTwo(b0: byte, b1: byte)
    ensures DecodeFinal(CharOf(b0 / 4), CharOf((b0 % 4) * 16 + b1 / 16), CharOf((b1 % 16) * 4), '=')
            == Some([b0, b1])
  {
    assert ((b0 % 4) * 16 + b1 / 16) / 16 == b0 % 4;
    assert ((b0 % 4) * 16 + b1 / 16) % 16 == b1 / 16;
    assert ((b1 % 16) * 4) / 4 == b1 % 16;
  }

  /** A string longer than one group decodes as its first group followed by
      the rest. */
  lemma DecodeLong(s: string, group: seq<byte>, rest: seq<byte>)
    requires |s| > 4
    requires DecodeFull(s[0], s[1], s[2], s[3]) == Some(group)
    requires Decode(s[4..]) == Some(rest)
    ensures Decode(s) == Some(group + rest)
  {
  }

  /** A full group in front of the encoding of the rest. */
  lemma EncodeLong(b: seq<byte>)
    requires |b| >= 3
    ensures Encode(b) == [CharOf(b[0] / 4), CharOf((b[0] % 4) * 16 + b[1] / 16),
                          CharOf((b[1] % 16) * 4 + b[2] / 64), CharOf(b[2] % 64)] + Encode(b[3..])
  {
  }

  /** Decoding undoes encoding, for every octet string. */
  lemma {:induction false} DecodeEncode(b: seq<byte>)
    ensures Decode(Encode(b)) == Some(b)
    decreases |b|, 1
  {
    if |b| == 0 {
    } else if |b| == 1 {
      DecodeLastOne(b[0]);
      assert b == [b[0]];
    } else if |b| == 2 {
      DecodeLastTwo(b[0], b[1]);
      assert b == [b[0], b[1]];
    } else {
      DecodeEncodeGroups(b);
    }
  }

  lemma {:induction false} DecodeEncodeGroups(b: seq<byte>)
    requires |b| >= 3
    ensures Decode(Encode(b)) == Some(b)
    decreases |b|, 0
  {
    DecodeGroup(b[0], b[1], b[2]);
    EncodeLong(b);
    var s := Encode(b);
    if |b| == 3 {
      assert Encode(b[3..]) == [];
      assert b == [b[0], b[1], b[2]];
    } else {
      assert s[4..] == Encode(b[3..]);
      DecodeEncode(b[3..]);
      DecodeLong(s, [b[0], b[1], b[2]], b[3..]);
      assert b == [b[0], b[1], b[2]] + b[3..];
    }
  }

  /** No encoding contains a space, so it survives a split at spaces. */
  lemma EncodeHasNoSpace(b: seq<byte>)
    ensures ' ' !in Encode(b)
  {
  }
}
