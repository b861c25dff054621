/** UTF-8 as Python's strict `utf-8` codec reads it: shortest forms only, no
    surrogate code points, nothing above U+10FFFF. A Dafny `char` is a Unicode
    scalar value, so a decoded string holds exactly the code points read. */
module Utf8 {
  import opened Wrappers
  import opened Bytes

  predicate IsContinuation(b: byte) {
    0x80 <= b <= 0xBF
  }

  /** The one to four octets that encode one scalar value. */
  function EncodeChar(c: char): (r: seq<byte>)
    ensures 1 <= |r| <= 4
    ensures (|r| == 1) == (c as int < 0x80)
  {
    var x := c as int;
    if x < 0x80 then [x]
    else if x < 0x800 then [0xC0 + x / 64, 0x80 + x % 64]
    else if x < 0x1_0000 then [0xE0 + x / 4096, 0x80 + (x / 64) % 64, 0x80 + x % 64]
    else [0xF0 + x / 262144, 0x80 + (x / 4096) % 64, 0x80 + (x / 64) % 64, 0x80 + x % 64]
  }

  function Encode(s: string): (r: seq<byte>)
    ensures |s| <= |r| <= 4 * |s|
  {
    if s == [] then [] else EncodeChar(s[0]) + Encode(s[1..])
  }

  /** The scalar value at the front of `b` and the number of octets it takes,
      or None when those octets are not a well-formed UTF-8 sequence. */
  function DecodeFirst(b: seq<byte>): (r: Option<(char, nat)>)
    requires |b| > 0
    ensures r.Some? ==> 1 <= r.value.1 <= |b| && r.value.1 <= 4
    ensures r.Some? ==> (r.value.1 == 1 <==> b[0] < 0x80)
    ensures r.Some? ==> EncodeChar(r.value.0) == b[..r.value.1]
  {
    var b0: int := b[0];
    if b0 < 0x80 then Some((b0 as char, 1))
    else if 0xC2 <= b0 <= 0xDF then
      if |b| >= 2 && IsContinuation(b[1])
      then
        EncodeTwo(b0, b[1]);
        Some((((b0 - 0xC0) * 64 + (b[1] as int - 0x80)) as char, 2))
      else None
    else if 0xE0 <= b0 <= 0xEF then
      if |b| >= 3 && IsContinuation(b[1]) && IsContinuation(b[2])
         && (b0 == 0xE0 ==> 0xA0 <= b[1])
         && (b0 == 0xED ==> b[1] <= 0x9F)
      then
        EncodeThree(b0, b[1], b[2]);
        Some((((b0 - 0xE0) * 4096 + (b[1] as int - 0x80) * 64 + (b[2] as int - 0x80)) as char, 3))
      else None
    else if 0xF0 <= b0 <= 0xF4 then
      if |b| >= 4 && IsContinuation(b[1]) && IsContinuation(b[2]) && IsContinuation(b[3])
         && (b0 == 0xF0 ==> 0x90 <= b[1])
         && (b0 == 0xF4 ==> b[1] <= 0x8F)
      then
        EncodeFour(b0, b[1], b[2], b[3]);
        Some((((b0 - 0xF0) * 262144 + (b[1] as int - 0x80) * 4096
               + (b[2] as int - 0x80) * 64 + (b[3] as int - 0x80)) as char, 4))
      else None
    else None
  }

  lemma EncodeTwo(b0: int, b1: byte)
    requires 0xC2 <= b0 <= 0xDF && IsContinuation(b1)
    ensures EncodeChar(((b0 - 0xC0) * 64 + (b1 - 0x80)) as char) == [b0, b1]
  {
    var x := (b0 - 0xC0) * 64 + (b1 - 0x80);
    assert x / 64 == b0 - 0xC0 && x % 64 == b1 - 0x80;
  }

  lemma EncodeThree(b0: int, b1: byte, b2: byte)
    requires 0xE0 <= b0 <= 0xEF && IsContinuation(b1) && IsContinuation(b2)
    requires b0 == 0xE0 ==> 0xA0 <= b1
    requires b0 == 0xED ==> b1 <= 0x9F
    ensures var x := (b0 - 0xE0) * 4096 + (b1 - 0x80) * 64 + (b2 - 0x80);
            (0x800 <= x < 0xD800 || 0xE000 <= x < 0x1_0000) &&
            EncodeChar(x as char) == [b0, b1, b2]
  {
    var x := (b0 - 0xE0) * 4096 + (b1 - 0x80) * 64 + (b2 - 0x80);
    assert x / 64 == (b0 - 0xE0) * 64 + (b1 - 0x80);
    assert x / 4096 == b0 - 0xE0;
    assert (x / 64) % 64 == b1 - 0x80 && x % 64 == b2 - 0x80;
  }

  lemma EncodeFour(b0: int, b1: byte, b2: byte, b3: byte)
    requires 0xF0 <= b0 <= 0xF4 && IsContinuation(b1) && IsContinuation(b2) && IsContinuation(b3)
    requires b0 == 0xF0 ==> 0x90 <= b1
    requires b0 == 0xF4 ==> b1 <= 0x8F
    ensures var x := (b0 - 0xF0) * 262144 + (b1 - 0x80) * 4096 + (b2 - 0x80) * 64 + (b3 - 0x80);
            0x1_0000 <= x < 0x11_0000 &&
            EncodeChar(x as char) == [b0, b1, b2, b3]
  {
    var x := (b0 - 0xF0) * 262144 + (b1 - 0x80) * 4096 + (b2 - 0x80) * 64 + (b3 - 0x80);
    assert x / 64 == (b0 - 0xF0) * 4096 + (b1 - 0x80) * 64 + (b2 - 0x80);
    assert x / 4096 == (b0 - 0xF0) * 64 + (b1 - 0x80);
    assert x / 262144 == b0 - 0xF0;
    assert (x / 4096) % 64 == b1 - 0x80 && (x / 64) % 64 == b2 - 0x80 && x % 64 == b3 - 0x80;
  }

  /** Decoding fails, as Python raises UnicodeDecodeError, at the first
      ill-formed sequence. */
  function Decode(b: seq<byte>): (r: Option<string>)
    ensures r.Some? ==> |r.value| <= |b|
    decreases |b|
  {
    if b == [] then Some([])
    else
      match DecodeFirst(b)
      case None => None
      case Some((c, n)) =>
        match Decode(b[n..])
        case None => None
        case Some(rest) => Some([c] + rest)
  }

  lemma DecodeTwo(x: int, rest: seq<byte>)
    requires 0x80 <= x < 0x800
    ensures DecodeFirst([0xC0 + x / 64, 0x80 + x % 64] + rest) == Some((x as char, 2))
  {
    assert (x / 64) * 64 + x % 64 == x;
  }

  lemma DecodeThree(x: int, rest: seq<byte>)
    requires 0x800 <= x < 0xD800 || 0xE000 <= x < 0x1_0000
    ensures DecodeFirst([0xE0 + x / 4096, 0x80 + (x / 64) % 64, 0x80 + x % 64] + rest) == Some((x as char, 3))
  {
    var hi, mid, lo := x / 4096, (x / 64) % 64, x % 64;
    assert x / 64 == hi * 64 + mid;
    assert hi * 4096 + mid * 64 + lo == x;
    assert hi == 0 ==> 32 <= mid;
    assert hi == 13 ==> mid <= 31;
  }

  lemma DecodeFour(x: int, rest: seq<byte>)
    requires 0x1_0000 <= x < 0x11_0000
    ensures DecodeFirst([0xF0 + x / 262144, 0x80 + (x / 4096) % 64, 0x80 + (x / 64) % 64, 0x80 + x % 64] + rest)
            == Some((x as char, 4))
  {
    var top, hi, mid, lo := x / 262144, (x / 4096) % 64, (x / 64) % 64, x % 64;
    assert x / 4096 == top * 64 + hi;
    assert x / 64 == (x / 4096) * 64 + mid;
    assert top * 262144 + hi * 4096 + mid * 64 + lo == x;
    assert top == 0 ==> 16 <= hi;
    assert top == 4 ==> hi <= 15;
  }

  /** Reading one encoded scalar value back gives that value and its length. */
  lemma DecodeFirstEncodeChar(c: char, rest: seq<byte>)
    ensures DecodeFirst(EncodeChar(c) + rest) == Some((c, |EncodeChar(c)|))
  {
    var x := c as int;
    if x < 0x80 {
    } else if x < 0x800 {
      DecodeTwo(x, rest);
    } else if x < 0x1_0000 {
      DecodeThree(x, rest);
    } else {
      DecodeFour(x, rest);
    }
  }

  /** Decoding undoes encoding, for every string. */
  lemma {:induction false} DecodeEncode(s: string)
    ensures Decode(Encode(s)) == Some(s)
  {
    if s != [] {
      var e := EncodeChar(s[0]);
      var tail := Encode(s[1..]);
      DecodeFirstEncodeChar(s[0], tail);
      assert (e + tail)[|e|..] == tail;
      DecodeEncode(s[1..]);
      assert s == [s[0]] + s[1..];
    }
  }

  /** Only the shortest-form encoding of a string decodes: whatever decodes
      to `s` is `Encode(s)`. So overlong forms, surrogates and values above
      U+10FFFF, which no `EncodeChar` produces, are all refused. */
  lemma {:induction false} EncodeDecode(b: seq<byte>, s: string)
    requires Decode(b) == Some(s)
    ensures Encode(s) == b
    decreases |b|
  {
    if b != [] {
      var (c, n) := DecodeFirst(b).value;
      var rest := Decode(b[n..]).value;
      EncodeDecode(b[n..], rest);
      assert s == [c] + rest;
      assert s[1..] == rest;
      assert b == b[..n] + b[n..];
    }
  }
}
