/** The base 64 encoding of section 4 of RFC 4648 (alphabet `A-Z a-z 0-9 + /`,
    `=` padding), which PHP's `base64_encode` produces, and a strict decoder
    that accepts exactly the strings the encoder can produce.

    Both directions go through a sequence of sextets, the 6-bit values of
    the encoded characters, with `Pad` standing for `=`: bytes are cut into
    sextets (`Split`) and sextets are written as characters (`Chars`). */
module Base64 {
  import opened Wrappers
  import opened PhpStrings

  /** The sextet value that stands for the padding character `=`. */
  const Pad := 64

  predicate IsSextet(v: int) { 0 <= v <= Pad }

  predicate AllSextets(vs: seq<int>) {
    forall i :: 0 <= i < |vs| ==> IsSextet(vs[i])
  }

  /** The character for a sextet value (table 1 of RFC 4648), or `=` for `Pad`. */
  function Sextet(v: int): (c: Byte)
    requires IsSextet(v)
    ensures c == '=' <==> v == Pad
  {
    if v < 26 then ('A' as int + v) as char
    else if v < 52 then ('a' as int + (v - 26)) as char
    else if v < 62 then ('0' as int + (v - 52)) as char
    else if v == 62 then '+'
    else if v == 63 then '/'
    else '='
  }

  /** The sextet value a character stands for, if it is in the alphabet or is `=`. */
  function SextetValue(c: Byte): (r: Option<int>)
    ensures r.Some? ==> IsSextet(r.value)
  {
    if 'A' <= c <= 'Z' then Some(c as int - 'A' as int)
    else if 'a' <= c <= 'z' then Some(c as int - 'a' as int + 26)
    else if '0' <= c <= '9' then Some(c as int - '0' as int + 52)
    else if c == '+' then Some(62)
    else if c == '/' then Some(63)
    else if c == '=' then Some(Pad)
    else None
  }

  lemma SextetRoundTrip(v: int)
    requires IsSextet(v)
    ensures SextetValue(Sextet(v)) == Some(v)
  {
  }

  lemma SextetValueRoundTrip(c: Byte)
    requires SextetValue(c).Some?
    ensures Sextet(SextetValue(c).value) == c
  {
  }

  /** Writes sextets as characters. */
  function Chars(vs: seq<int>): (s: Bytes)
    requires AllSextets(vs)
    ensures |s| == |vs|
  {
    seq(|vs|, i requires 0 <= i < |vs| => Sextet(vs[i]))
  }

  /** Reads characters as sextets; `None` if one is neither in the alphabet nor `=`. */
  function Values(s: Bytes): (r: Option<seq<int>>)
    ensures r.Some? ==> |r.value| == |s| && AllSextets(r.value)
    decreases |s|
  {
    if s == [] then Some([])
    else
      match (SextetValue(s[0]), Values(s[1..]))
      case (Some(v), Some(vs)) => Some([v] + vs)
      case _ => None
  }

  lemma {:induction false} ValuesOfChars(vs: seq<int>)
    requires AllSextets(vs)
    ensures Values(Chars(vs)) == Some(vs)
    decreases |vs|
  {
    if vs != [] {
      var s := Chars(vs);
      SextetRoundTrip(vs[0]);
      ValuesOfChars(vs[1..]);
      assert s[1..] == Chars(vs[1..]);
      assert [vs[0]] + vs[1..] == vs;
    }
  }

  lemma {:induction false} CharsOfValues(s: Bytes)
    requires Values(s).Some?
    ensures Chars(Values(s).value) == s
    decreases |s|
  {
    if s != [] {
      SextetValueRoundTrip(s[0]);
      CharsOfValues(s[1..]);
      var vs := Values(s).value;
      assert vs[1..] == Values(s[1..]).value;
      assert [s[0]] + s[1..] == s;
    }
  }

  // The arithmetic of one group: three bytes are 24 bits, four sextets.

  lemma DivMod16(x: int, q: int, r: int)
    requires x == q * 16 + r && 0 <= r < 16
    ensures x / 16 == q && x % 16 == r
  {
  }

  lemma DivMod4(x: int, q: int, r: int)
    requires x == q * 4 + r && 0 <= r < 4
    ensures x / 4 == q && x % 4 == r
  {
  }

  lemma DivMod64(x: int, q: int, r: int)
    requires x == q * 64 + r && 0 <= r < 64
    ensures x / 64 == q && x % 64 == r
  {
  }

  /** Three bytes cut into four sextets are put back together by the decoder's arithmetic. */
  lemma BytesToSextets(x0: int, x1: int, x2: int)
    requires 0 <= x0 < 256 && 0 <= x1 < 256 && 0 <= x2 < 256
    ensures 0 <= x0 % 4 * 16 + x1 / 16 < 64 && 0 <= x1 % 16 * 4 + x2 / 64 < 64
    ensures x0 / 4 * 4 + (x0 % 4 * 16 + x1 / 16) / 16 == x0
    ensures (x0 % 4 * 16 + x1 / 16) % 16 * 16 + (x1 % 16 * 4 + x2 / 64) / 4 == x1
    ensures (x1 % 16 * 4 + x2 / 64) % 4 * 64 + x2 % 64 == x2
  {
    DivMod16(x0 % 4 * 16 + x1 / 16, x0 % 4, x1 / 16);
    DivMod4(x1 % 16 * 4 + x2 / 64, x1 % 16, x2 / 64);
  }

  /** Four sextets joined into three bytes are cut back into the same sextets by the encoder's arithmetic. */
  lemma SextetsToBytes(v0: int, v1: int, v2: int, v3: int)
    requires 0 <= v0 < 64 && 0 <= v1 < 64 && 0 <= v2 < 64 && 0 <= v3 < 64
    ensures 0 <= v0 * 4 + v1 / 16 < 256 && 0 <= v1 % 16 * 16 + v2 / 4 < 256 && 0 <= v2 % 4 * 64 + v3 < 256
    ensures (v0 * 4 + v1 / 16) / 4 == v0
    ensures (v0 * 4 + v1 / 16) % 4 * 16 + (v1 % 16 * 16 + v2 / 4) / 16 == v1
    ensures (v1 % 16 * 16 + v2 / 4) % 16 * 4 + (v2 % 4 * 64 + v3) / 64 == v2
    ensures (v2 % 4 * 64 + v3) % 64 == v3
  {
    DivMod4(v0 * 4 + v1 / 16, v0, v1 / 16);
    DivMod16(v1 % 16 * 16 + v2 / 4, v1 % 16, v2 / 4);
    DivMod64(v2 % 4 * 64 + v3, v2 % 4, v3);
  }

  // Bytes to sextets and back

  /** Cuts one group of one to three bytes into four sextets; the bits a
      short group is missing are zero and the missing sextets are `Pad`. */
  function SplitGroup(g: Bytes): (vs: seq<int>)
    requires 1 <= |g| <= 3
    ensures |vs| == 4 && AllSextets(vs)
  {
    var x0 := g[0] as int;
    if |g| == 1 then [x0 / 4, x0 % 4 * 16, Pad, Pad]
    else
      var x1 := g[1] as int;
      if |g| == 2 then [x0 / 4, x0 % 4 * 16 + x1 / 16, x1 % 16 * 4, Pad]
      else
        var x2 := g[2] as int;
        [x0 / 4, x0 % 4 * 16 + x1 / 16, x1 % 16 * 4 + x2 / 64, x2 % 64]
  }

  /** Cuts bytes into sextets, three bytes to four sextets. */
  function Split(b: Bytes): (vs: seq<int>)
    ensures AllSextets(vs)
    decreases |b|
  {
    if |b| == 0 then []
    else if |b| <= 3 then SplitGroup(b)
    else SplitGroup(b[..3]) + Split(b[3..])
  }

  /** Joins one group of four sextets into bytes; padding may only occur in
      the `last` group, and the bits it leaves over must be zero. */
  function JoinGroup(v0: int, v1: int, v2: int, v3: int, last: bool): Option<Bytes>
    requires IsSextet(v0) && IsSextet(v1) && IsSextet(v2) && IsSextet(v3)
  {
    if v0 == Pad || v1 == Pad then None
    else if v2 == Pad then
      if last && v3 == Pad && v1 % 16 == 0 then Some([(v0 * 4 + v1 / 16) as char]) else None
    else if v3 == Pad then
      if last && v2 % 4 == 0 then Some([(v0 * 4 + v1 / 16) as char, (v1 % 16 * 16 + v2 / 4) as char]) else None
    else
      Some([(v0 * 4 + v1 / 16) as char, (v1 % 16 * 16 + v2 / 4) as char, (v2 % 4 * 64 + v3) as char])
  }

  /** Joins sextets into bytes, four at a time. */
  function Join(vs: seq<int>): Option<Bytes>
    requires AllSextets(vs)
    decreases |vs|
  {
    if |vs| == 0 then Some([])
    else if |vs| < 4 then None
    else
      match (JoinGroup(vs[0], vs[1], vs[2], vs[3], |vs| == 4), Join(vs[4..]))
      case (Some(head), Some(tail)) => Some(head + tail)
      case _ => None
  }

  /** A group cut from one, two or three bytes joins back to those bytes;
      only a group of three may come before others. */
  lemma JoinSplitGroup(g: Bytes, last: bool)
    requires 1 <= |g| <= 3 && (|g| < 3 ==> last)
    ensures var vs := SplitGroup(g);
      JoinGroup(vs[0], vs[1], vs[2], vs[3], last) == Some(g)
  {
    var x0 := g[0] as int;
    if |g| == 1 {
      BytesToSextets(x0, 0, 0);
      DivMod16(x0 % 4 * 16, x0 % 4, 0);
      assert g == [g[0]];
    } else if |g| == 2 {
      var x1 := g[1] as int;
      BytesToSextets(x0, x1, 0);
      DivMod4(x1 % 16 * 4, x1 % 16, 0);
      assert g == [g[0], g[1]];
    } else {
      BytesToSextets(x0, g[1] as int, g[2] as int);
      assert g == [g[0], g[1], g[2]];
    }
  }

  lemma {:induction false} JoinSplit(b: Bytes)
    ensures Join(Split(b)) == Some(b)
    decreases |b|
  {
    if |b| > 0 {
      var vs := Split(b);
      if |b| > 3 {
        JoinSplitGroup(b[..3], false);
        JoinSplit(b[3..]);
        assert vs[4..] == Split(b[3..]);
        assert b[..3] + b[3..] == b;
      } else {
        JoinSplitGroup(b, true);
        assert vs[4..] == [];
        assert b + [] == b;
      }
    }
  }

  /** A group the decoder accepts is cut back into the same sextets; only
      the last group can be short. */
  lemma SplitJoinGroup(v0: int, v1: int, v2: int, v3: int, last: bool)
    requires IsSextet(v0) && IsSextet(v1) && IsSextet(v2) && IsSextet(v3)
    requires JoinGroup(v0, v1, v2, v3, last).Some?
    ensures var h := JoinGroup(v0, v1, v2, v3, last).value;
      1 <= |h| <= 3 && (|h| < 3 ==> last) && SplitGroup(h) == [v0, v1, v2, v3]
  {
    if v2 == Pad {
      SextetsToBytes(v0, v1, 0, 0);
      DivMod16(v1, v1 / 16, 0);
    } else if v3 == Pad {
      SextetsToBytes(v0, v1, v2, 0);
      DivMod4(v2, v2 / 4, 0);
    } else {
      SextetsToBytes(v0, v1, v2, v3);
    }
  }

  lemma {:induction false} SplitJoin(vs: seq<int>)
    requires AllSextets(vs) && Join(vs).Some?
    ensures Split(Join(vs).value) == vs
    decreases |vs|
  {
    if |vs| > 0 {
      var h := JoinGroup(vs[0], vs[1], vs[2], vs[3], |vs| == 4).value;
      var t := Join(vs[4..]).value;
      SplitJoinGroup(vs[0], vs[1], vs[2], vs[3], |vs| == 4);
      SplitJoin(vs[4..]);
      var b := h + t;
      if |vs| > 4 {
        assert b[..3] == h && b[3..] == t;
      } else {
        assert b == h;
      }
      assert vs == vs[..4] + vs[4..];
    }
  }

  // The encoder and the decoder

  /** `base64_encode`: every three bytes become four characters; a final
      group of one or two bytes is padded with `=` to four characters. */
  function Encode(b: Bytes): Bytes
  {
    Chars(Split(b))
  }

  /** Every started group of three bytes takes four characters. */
  lemma {:induction false} EncodeLength(b: Bytes)
    ensures |Encode(b)| == 4 * ((|b| + 2) / 3)
    decreases |b|
  {
    if |b| > 3 {
      EncodeLength(b[3..]);
      assert (|b| + 2) / 3 == (|b[3..]| + 2) / 3 + 1;
    }
  }

  /** Decodes a base 64 string; `None` unless it is exactly what `Encode`
      produces for some input (length a multiple of four, padding only at
      the end, unused bits zero). */
  function Decode(s: Bytes): Option<Bytes>
  {
    match Values(s)
    case None => None
    case Some(vs) => Join(vs)
  }

  /** Decoding undoes encoding. */
  lemma DecodeEncode(b: Bytes)
    ensures Decode(Encode(b)) == Some(b)
  {
    ValuesOfChars(Split(b));
    JoinSplit(b);
  }

  /** Encoding undoes decoding: a string the decoder accepts is the encoding
      of what it decodes to, so the decoder accepts nothing else. */
  lemma EncodeDecode(s: Bytes)
    requires Decode(s).Some?
    ensures Encode(Decode(s).value) == s
  {
    SplitJoin(Values(s).value);
    CharsOfValues(s);
  }

  /** Every character of an encoding is in the alphabet or is padding. */
  lemma EncodeAlphabet(b: Bytes)
    ensures forall i :: 0 <= i < |Encode(b)| ==> SextetValue(Encode(b)[i]).Some?
  {
  }
}
