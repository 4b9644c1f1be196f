/** UTF-8 as Java's String.getBytes("utf-8") produces it for a well-formed
    string: each Unicode scalar value becomes one to four octets. */
module Utf8 {
  import opened Wrappers
  import opened Bytes

  predicate IsContinuation(x: byte) {
    0x80 <= x < 0xC0
  }

  /** The octets of one scalar value. */
  function EncodeChar(c: char): (r: seq<byte>)
    ensures 1 <= |r| <= 4
    ensures |r| == 1 <==> c as int < 0x80
  {
    var v := c as int;
    if v < 0x80 then [v]
    else if v < 0x800 then [0xC0 + v / 64, 0x80 + v % 64]
    else if v < 0x10000 then [0xE0 + (v / 64) / 64, 0x80 + (v / 64) % 64, 0x80 + v % 64]
    else [0xF0 + ((v / 64) / 64) / 64, 0x80 + ((v / 64) / 64) % 64, 0x80 + (v / 64) % 64, 0x80 + v % 64]
  }

  function Encode(s: string): (r: seq<byte>)
    ensures |r| >= |s|
  {
    if s == [] then [] else EncodeChar(s[0]) + Encode(s[1..])
  }

  /** The first scalar value of b and the number of octets it takes; None
      when b does not start with a shortest-form encoding of a scalar value. */
  function DecodeFirst(b: seq<byte>): (r: Option<(char, nat)>)
    ensures r.Some? ==> 1 <= r.value.1 <= |b|
  {
    if b == [] then None
    else if b[0] < 0x80 then Some((b[0] as char, 1))
    else if 0xC0 <= b[0] < 0xE0 then
      if |b| < 2 || !IsContinuation(b[1]) then None
      else
        var v := (b[0] as int - 0xC0) * 64 + (b[1] as int - 0x80);
        if v < 0x80 then None else Some((v as char, 2))
    else if 0xE0 <= b[0] < 0xF0 then
      if |b| < 3 || !IsContinuation(b[1]) || !IsContinuation(b[2]) then None
      else
        var v := ((b[0] as int - 0xE0) * 64 + (b[1] as int - 0x80)) * 64 + (b[2] as int - 0x80);
        if v < 0x800 || 0xD800 <= v < 0xE000 then None else Some((v as char, 3))
    else if 0xF0 <= b[0] < 0xF8 then
      if |b| < 4 || !IsContinuation(b[1]) || !IsContinuation(b[2]) || !IsContinuation(b[3]) then None
      else
        var v := (((b[0] as int - 0xF0) * 64 + (b[1] as int - 0x80)) * 64 + (b[2] as int - 0x80)) * 64 + (b[3] as int - 0x80);
        if v < 0x10000 || 0x110000 <= v then None else Some((v as char, 4))
    else None
  }

  function Decode(b: seq<byte>): Option<string>
    decreases |b|
  {
    if b == [] then Some([])
    else
      match DecodeFirst(b)
      case None => None
      case Some((c, n)) =>
        match Decode(b[n..])
        case None => None
        case Some(rest) => Some([c] + rest)
  }

  lemma Digits(v: int)
    requires 0 <= v
    ensures v == (v / 64) * 64 + v % 64
    ensures v / 64 == ((v / 64) / 64) * 64 + (v / 64) % 64
    ensures v / 64 / 64 == ((v / 64 / 64) / 64) * 64 + (v / 64 / 64) % 64
  {
  }

  lemma DecodeFirstTwo(c: char, t: seq<byte>)
    requires 0x80 <= c as int < 0x800
    ensures DecodeFirst(EncodeChar(c) + t) == Some((c, 2))
  {
    var v := c as int;
    Digits(v);
    var b := EncodeChar(c) + t;
    assert b[0] == 0xC0 + v / 64 && b[1] == 0x80 + v % 64;
    assert (b[0] as int - 0xC0) * 64 + (b[1] as int - 0x80) == v;
  }

  lemma DecodeFirstThree(c: char, t: seq<byte>)
    requires 0x800 <= c as int < 0x10000
    ensures DecodeFirst(EncodeChar(c) + t) == Some((c, 3))
  {
    var v := c as int;
    Digits(v);
    var b := EncodeChar(c) + t;
    assert v / 64 < 1024;
    assert b[0] == 0xE0 + (v / 64) / 64 && b[1] == 0x80 + (v / 64) % 64 && b[2] == 0x80 + v % 64;
    assert ((b[0] as int - 0xE0) * 64 + (b[1] as int - 0x80)) == v / 64;
    assert ((b[0] as int - 0xE0) * 64 + (b[1] as int - 0x80)) * 64 + (b[2] as int - 0x80) == v;
  }

  lemma DecodeFirstFour(c: char, t: seq<byte>)
    requires 0x10000 <= c as int
    ensures DecodeFirst(EncodeChar(c) + t) == Some((c, 4))
  {
    var v := c as int;
    Digits(v);
    var b := EncodeChar(c) + t;
    assert v < 0x110000;
    assert v / 64 < 0x4400;
    assert v / 64 / 64 < 0x110;
    assert b[0] == 0xF0 + ((v / 64) / 64) / 64 && b[1] == 0x80 + ((v / 64) / 64) % 64;
    assert b[2] == 0x80 + (v / 64) % 64 && b[3] == 0x80 + v % 64;
    assert (b[0] as int - 0xF0) * 64 + (b[1] as int - 0x80) == v / 64 / 64;
    assert ((b[0] as int - 0xF0) * 64 + (b[1] as int - 0x80)) * 64 + (b[2] as int - 0x80) == v / 64;
    assert (((b[0] as int - 0xF0) * 64 + (b[1] as int - 0x80)) * 64 + (b[2] as int - 0x80)) * 64 + (b[3] as int - 0x80) == v;
  }

  /** The encoding of one scalar value is read back as that value, whatever follows it. */
  lemma DecodeFirstEncodeChar(c: char, t: seq<byte>)
    ensures DecodeFirst(EncodeChar(c) + t) == Some((c, |EncodeChar(c)|))
  {
    var v := c as int;
    if v < 0x80 {
      assert (EncodeChar(c) + t)[0] == v;
    } else if v < 0x800 {
      DecodeFirstTwo(c, t);
    } else if v < 0x10000 {
      DecodeFirstThree(c, t);
    } else {
      DecodeFirstFour(c, t);
    }
  }

  /** Round trip: the octets Java sends decode back to the original string. */
  lemma {:induction false} DecodeEncode(s: string)
    ensures Decode(Encode(s)) == Some(s)
  {
    if s != [] {
      var e := EncodeChar(s[0]);
      var t := Encode(s[1..]);
      DecodeFirstEncodeChar(s[0], t);
      DecodeEncode(s[1..]);
      assert (e + t)[|e|..] == t;
      assert s == [s[0]] + s[1..];
    }
  }

  /** ASCII text is sent as its own code points, one octet per character. */
  lemma {:induction false} EncodeAscii(s: string)
    requires forall i :: 0 <= i < |s| ==> s[i] as int < 0x80
    ensures |Encode(s)| == |s|
    ensures forall i :: 0 <= i < |s| ==> Encode(s)[i] == s[i] as int
  {
    if s != [] {
      EncodeAscii(s[1..]);
    }
  }
}
