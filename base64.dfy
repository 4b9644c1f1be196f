/** Base64 as Commons Codec's Base64.encodeBase64(byte[]) produces it: the
    standard alphabet, '=' padding and no line breaks (section 4 of RFC 4648). */
module Base64 {
  import opened Wrappers
  import opened Bytes

  predicate IsAlphabetChar(c: char) {
    'A' <= c <= 'Z' || 'a' <= c <= 'z' || '0' <= c <= '9' || c == '+' || c == '/'
  }

  /** The value of an alphabet character (Table 1 of RFC 4648); None off the alphabet. */
  function DecodeSextet(c: char): (r: Option<int>)
    ensures r.Some? <==> IsAlphabetChar(c)
    ensures r.Some? ==> 0 <= r.value < 64
  {
    if 'A' <= c <= 'Z' then Some(c as int - 'A' as int)
    else if 'a' <= c <= 'z' then Some(c as int - 'a' as int + 26)
    else if '0' <= c <= '9' then Some(c as int - '0' as int + 52)
    else if c == '+' then Some(62)
    else if c == '/' then Some(63)
    else None
  }

  /** The alphabet character of a 6-bit value; DecodeSextet undoes it. */
  function EncodeSextet(v: int): (c: char)
    requires 0 <= v < 64
    ensures IsAlphabetChar(c) && DecodeSextet(c) == Some(v)
  {
    if v < 26 then ('A' as int + v) as char
    else if v < 52 then ('a' as int + (v - 26)) as char
    else if v < 62 then ('0' as int + (v - 52)) as char
    else if v == 62 then '+'
    else '/'
  }

  /** Each group of three octets becomes four characters; a final group of
      one or two octets is padded with "==" or "=". */
  function Encode(b: seq<byte>): (r: string)
    ensures |b| > 0 ==> |r| >= 4
    ensures forall i :: 0 <= i < |r| ==> IsAlphabetChar(r[i]) || r[i] == '='
  {
    if |b| == 0 then []
    else if |b| == 1 then
      [EncodeSextet(b[0] / 4), EncodeSextet((b[0] % 4) * 16), '=', '=']
    else if |b| == 2 then
      [EncodeSextet(b[0] / 4), EncodeSextet((b[0] % 4) * 16 + b[1] / 16),
       EncodeSextet((b[1] % 16) * 4), '=']
    else EncodeGroup(b[0], b[1], b[2]) + Encode(b[3..])
  }

  /** The three octets of a group of four alphabet characters. */
  function DecodeGroup(c0: char, c1: char, c2: char, c3: char): Option<seq<byte>> {
    var v0 := DecodeSextet(c0);
    var v1 := DecodeSextet(c1);
    var v2 := DecodeSextet(c2);
    var v3 := DecodeSextet(c3);
    if v0.None? || v1.None? || v2.None? || v3.None? then None
    else Some([v0.value * 4 + v1.value / 16,
               (v1.value % 16) * 16 + v2.value / 4,
               (v2.value % 4) * 64 + v3.value])
  }

  /** The last group, which may carry one or two padding characters. */
  function DecodeLastGroup(c0: char, c1: char, c2: char, c3: char): Option<seq<byte>> {
    var v0 := DecodeSextet(c0);
    var v1 := DecodeSextet(c1);
    var v2 := DecodeSextet(c2);
    if v0.None? || v1.None? then None
    else if c2 == '=' && c3 == '=' then Some([v0.value * 4 + v1.value / 16])
    else if v2.None? then None
    else if c3 == '=' then Some([v0.value * 4 + v1.value / 16, (v1.value % 16) * 16 + v2.value / 4])
    else DecodeGroup(c0, c1, c2, c3)
  }

  /** The decoder: None for a string that is not padded base64. */
  function Decode(s: string): Option<seq<byte>>
    decreases |s|
  {
    if |s| == 0 then Some([])
    else if |s| < 4 then None
    else if |s| == 4 then DecodeLastGroup(s[0], s[1], s[2], s[3])
    else
      match DecodeGroup(s[0], s[1], s[2], s[3])
      case None => None
      case Some(group) =>
        match Decode(s[4..])
        case None => None
        case Some(rest) => Some(group + rest)
  }

  lemma DivMod16(hi: int, lo: int)
    requires 0 <= lo < 16
    ensures (hi * 16 + lo) / 16 == hi && (hi * 16 + lo) % 16 == lo
  {
  }

  lemma DivMod4(hi: int, lo: int)
    requires 0 <= lo < 4
    ensures (hi * 4 + lo) / 4 == hi && (hi * 4 + lo) % 4 == lo
  {
  }

  /** The four sextets of a group of three octets. */
  function Sextets(b0: byte, b1: byte, b2: byte): (int, int, int, int) {
    (b0 / 4, (b0 % 4) * 16 + b1 / 16, (b1 % 16) * 4 + b2 / 64, b2 % 64)
  }

  lemma GroupArithmetic(b0: byte, b1: byte, b2: byte)
    ensures var (v0, v1, v2, v3) := Sextets(b0, b1, b2);
      && 0 <= v0 < 64 && 0 <= v1 < 64 && 0 <= v2 < 64 && 0 <= v3 < 64
      && v0 * 4 + v1 / 16 == b0
      && (v1 % 16) * 16 + v2 / 4 == b1
      && (v2 % 4) * 64 + v3 == b2
  {
    DivMod16(b0 % 4, b1 / 16);
    DivMod4(b1 % 16, b2 / 64);
  }

  function EncodeGroup(b0: byte, b1: byte, b2: byte): (r: string)
    ensures |r| == 4 && forall i :: 0 <= i < 4 ==> IsAlphabetChar(r[i])
  {
    var (v0, v1, v2, v3) := Sextets(b0, b1, b2);
    GroupArithmetic(b0, b1, b2);
    [EncodeSextet(v0), EncodeSextet(v1), EncodeSextet(v2), EncodeSextet(v3)]
  }

  lemma DecodeEncodeGroup(h: seq<byte>)
    requires |h| == 3
    ensures var g := EncodeGroup(h[0], h[1], h[2]);
            DecodeGroup(g[0], g[1], g[2], g[3]) == Some(h)
  {
    GroupArithmetic(h[0], h[1], h[2]);
    assert h == [h[0], h[1], h[2]];
  }

  /** A last group with one padding character. */
  lemma DecodeLastGroupTwo(c0: char, c1: char, c2: char, v0: int, v1: int, v2: int)
    requires DecodeSextet(c0) == Some(v0) && DecodeSextet(c1) == Some(v1) && DecodeSextet(c2) == Some(v2)
    ensures DecodeLastGroup(c0, c1, c2, '=') == Some([v0 * 4 + v1 / 16, (v1 % 16) * 16 + v2 / 4])
  {
    assert c2 != '=';
  }

  /** Four characters are decoded as the last group. */
  lemma DecodeFour(s: string)
    requires |s| == 4
    ensures Decode(s) == DecodeLastGroup(s[0], s[1], s[2], s[3])
  {
  }

  /** The encodings of one and of two octets, written out. */
  lemma EncodeShort(b: seq<byte>)
    requires 1 <= |b| <= 2
    ensures |b| == 1 ==> Encode(b) == [EncodeSextet(b[0] / 4), EncodeSextet((b[0] % 4) * 16), '=', '=']
    ensures |b| == 2 ==> Encode(b) == [EncodeSextet(b[0] / 4), EncodeSextet((b[0] % 4) * 16 + b[1] / 16),
                                       EncodeSextet((b[1] % 16) * 4), '=']
  {
  }

  lemma DecodeOneOctet(s: string, b0: byte)
    requires s == [EncodeSextet(b0 / 4), EncodeSextet((b0 % 4) * 16), '=', '=']
    ensures Decode(s) == Some([b0])
  {
    DecodeFour(s);
    DivMod16(b0 % 4, 0);
  }

  lemma DecodeTwoOctets(s: string, b0: byte, b1: byte)
    requires s == [EncodeSextet(b0 / 4), EncodeSextet((b0 % 4) * 16 + b1 / 16), EncodeSextet((b1 % 16) * 4), '=']
    ensures Decode(s) == Some([b0, b1])
  {
    var v0, v1, v2 := b0 / 4, (b0 % 4) * 16 + b1 / 16, (b1 % 16) * 4;
    DecodeFour(s);
    DecodeLastGroupTwo(s[0], s[1], s[2], v0, v1, v2);
    DivMod16(b0 % 4, b1 / 16);
    DivMod4(b1 % 16, 0);
  }

  lemma DecodeEncodeOne(b: seq<byte>)
    requires |b| == 1
    ensures Decode(Encode(b)) == Some(b)
  {
    EncodeShort(b);
    DecodeOneOctet(Encode(b), b[0]);
    assert [b[0]] == b;
  }

  lemma DecodeEncodeTwo(b: seq<byte>)
    requires |b| == 2
    ensures Decode(Encode(b)) == Some(b)
  {
    EncodeShort(b);
    DecodeTwoOctets(Encode(b), b[0], b[1]);
    assert [b[0], b[1]] == b;
  }

  lemma DecodeEncodeThree(b: seq<byte>)
    requires |b| == 3
    ensures Decode(Encode(b)) == Some(b)
  {
    var g := EncodeGroup(b[0], b[1], b[2]);
    assert Encode(b) == g + [] == g;
    DecodeEncodeGroup(b);
    assert IsAlphabetChar(g[2]) && IsAlphabetChar(g[3]);
    assert DecodeLastGroup(g[0], g[1], g[2], g[3]) == DecodeGroup(g[0], g[1], g[2], g[3]);
  }

  /** A full group followed by more input decodes group by group. */
  lemma DecodeCons(g: string, t: string, x: seq<byte>, y: seq<byte>)
    requires |g| == 4 && |t| > 0
    requires DecodeGroup(g[0], g[1], g[2], g[3]) == Some(x)
    requires Decode(t) == Some(y)
    ensures Decode(g + t) == Some(x + y)
  {
    var s := g + t;
    assert s[0] == g[0] && s[1] == g[1] && s[2] == g[2] && s[3] == g[3];
    assert s[4..] == t;
  }

  lemma DecodeEncodeBlock(b: seq<byte>)
    requires |b| > 3
    requires Decode(Encode(b[3..])) == Some(b[3..])
    ensures Decode(Encode(b)) == Some(b)
  {
    EncodeSplits(b);
    DecodeEncodeGroup(b[..3]);
    DecodeCons(EncodeGroup(b[0], b[1], b[2]), Encode(b[3..]), b[..3], b[3..]);
  }

  lemma EncodeSplits(b: seq<byte>)
    requires |b| > 3
    ensures Encode(b) == EncodeGroup(b[0], b[1], b[2]) + Encode(b[3..])
    ensures b == b[..3] + b[3..]
    ensures b[..3][0] == b[0] && b[..3][1] == b[1] && b[..3][2] == b[2]
  {
    assert !(|b| == 0 || |b| == 1 || |b| == 2);
    assert b == b[..3] + b[3..];
  }

  /** Round trip: decoding the encoding gives the octets back. */
  lemma {:induction false} DecodeEncode(b: seq<byte>)
    ensures Decode(Encode(b)) == Some(b)
    decreases |b|
  {
    if |b| == 1 {
      DecodeEncodeOne(b);
    } else if |b| == 2 {
      DecodeEncodeTwo(b);
    } else if |b| == 3 {
      DecodeEncodeThree(b);
    } else if |b| > 3 {
      DecodeEncode(b[3..]);
      DecodeEncodeBlock(b);
    }
  }

  lemma EncodeShort3(b: seq<byte>)
    requires 1 <= |b| <= 3
    ensures |Encode(b)| == 4
  {
    if |b| < 3 {
      EncodeShort(b);
    } else {
      assert Encode(b) == EncodeGroup(b[0], b[1], b[2]) + Encode(b[3..]);
      assert b[3..] == [];
    }
  }

  /** Four characters for every started group of three octets. */
  lemma {:induction false} EncodeLength(b: seq<byte>)
    ensures |Encode(b)| == 4 * ((|b| + 2) / 3)
    decreases |b|
  {
    if |b| > 3 {
      EncodeLength(b[3..]);
      EncodeSplits(b);
      assert (|b| + 2) / 3 == (|b[3..]| + 2) / 3 + 1;
    } else if |b| > 0 {
      EncodeShort3(b);
    }
  }

  /** An encoding never holds an XML markup character. */
  lemma EncodeHasNoMarkup(b: seq<byte>)
    ensures '<' !in Encode(b) && '&' !in Encode(b)
  {
    var s := Encode(b);
    forall i | 0 <= i < |s| ensures s[i] != '<' && s[i] != '&' {
    }
  }
}
