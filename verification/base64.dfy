/**
 * The padded base64 encoding with the standard alphabet of section 4 of RFC 4648,
 * which Go's `base64.StdEncoding.EncodeToString` produces, together with a
 * decoder that serves as its reference inverse.
 *
 * Encoding is split in two steps that the proofs treat separately: bytes become
 * 6-bit values (`Sextets`, pure arithmetic), and values become characters
 * (`Chars`, the alphabet), followed by the `=` padding.
 */
module Base64 {
  import opened Wrappers
  import opened Text

  /** A 6-bit value, the index of one alphabet character. */
  type sextet = v: int | 0 <= v < 64

  /** The character that pads an incomplete final group. */
  const Pad: char := '='

  predicate IsAlphabetChar(c: char) {
    'A' <= c <= 'Z' || 'a' <= c <= 'z' || '0' <= c <= '9' || c == '+' || c == '/'
  }

  predicate AllAlphabet(s: string) {
    forall i :: 0 <= i < |s| ==> IsAlphabetChar(s[i])
  }

  /** The value of an alphabet character. */
  function ValueOf(c: char): sextet
    requires IsAlphabetChar(c)
  {
    if 'A' <= c <= 'Z' then c as int - 'A' as int
    else if 'a' <= c <= 'z' then c as int - 'a' as int + 26
    else if '0' <= c <= '9' then c as int - '0' as int + 52
    else if c == '+' then 62
    else 63
  }

  /** The alphabet character of a value: `A`-`Z`, `a`-`z`, `0`-`9`, `+`, `/` for 0 to 63. */
  function CharOf(v: sextet): char
  {
    if v < 26 then ('A' as int + v) as char
    else if v < 52 then ('a' as int + v - 26) as char
    else if v < 62 then ('0' as int + v - 52) as char
    else if v == 62 then '+'
    else '/'
  }

  /** Every value has its own alphabet character, and `ValueOf` reads the value back. */
  lemma CharOfValue(v: sextet)
    ensures IsAlphabetChar(CharOf(v)) && ValueOf(CharOf(v)) == v
  {
  }

  /** How many values the bytes left over after the full groups give. */
  function RestSextets(n: nat): nat
    requires n < 3
  {
    if n == 0 then 0 else n + 1
  }

  /** How many pad characters the encoding of `n` bytes ends with. */
  function PadCount(n: nat): nat {
    if n % 3 == 0 then 0 else 3 - n % 3
  }

  /**
   * The bytes as 6-bit values, most significant bits first: four values for each group of
   * three bytes, then two values for a single byte left over or three for a pair, the
   * missing low bits filled with zeros.
   */
  function Sextets(b: seq<byte>): (vs: seq<sextet>)
    ensures |vs| == 4 * (|b| / 3) + RestSextets(|b| % 3)
    decreases |b|
  {
    if |b| == 0 then []
    else if |b| == 1 then [b[0] / 4, b[0] % 4 * 16]
    else if |b| == 2 then [b[0] / 4, b[0] % 4 * 16 + b[1] / 16, b[1] % 16 * 4]
    else GroupSextets(b[0], b[1], b[2]) + Sextets(b[3..])
  }

  /** The four values of a full group of three bytes. */
  function GroupSextets(b0: byte, b1: byte, b2: byte): seq<sextet> {
    [b0 / 4, b0 % 4 * 16 + b1 / 16, b1 % 16 * 4 + b2 / 64, b2 % 64]
  }

  /** A full group in front, by the definition of `Sextets`. */
  lemma SextetsCons(b: seq<byte>)
    requires |b| >= 3
    ensures Sextets(b) == GroupSextets(b[0], b[1], b[2]) + Sextets(b[3..])
  {
  }

  /** Three full groups, one after another. */
  lemma SextetsOfThreeGroups(b: seq<byte>)
    requires |b| == 9
    ensures Sextets(b) == GroupSextets(b[0], b[1], b[2]) + GroupSextets(b[3], b[4], b[5]) + GroupSextets(b[6], b[7], b[8])
  {
    SextetsCons(b);
    SextetsCons(b[3..]);
    SextetsCons(b[6..]);
    assert b[3..][3..] == b[6..] && b[6..][3..] == [];
  }

  /** Bytes in whole groups encode independently of the bytes after them. */
  lemma {:induction false} SextetsAppend(x: seq<byte>, y: seq<byte>)
    requires |x| % 3 == 0
    ensures Sextets(x + y) == Sextets(x) + Sextets(y)
    decreases |x|
  {
    if |x| > 0 {
      SextetsAppend(x[3..], y);
      SextetsAppendStep(x, y, Sextets(x[3..]), Sextets(y));
    } else {
      assert x + y == y;
    }
  }

  lemma SextetsAppendStep(x: seq<byte>, y: seq<byte>, tx: seq<sextet>, ty: seq<sextet>)
    requires |x| >= 3 && Sextets(x[3..]) == tx && Sextets(y) == ty
    requires Sextets(x[3..] + y) == tx + ty
    ensures Sextets(x + y) == Sextets(x) + ty
  {
    var xy := x + y;
    assert xy[3..] == x[3..] + y;
    assert xy[0] == x[0] && xy[1] == x[1] && xy[2] == x[2];
    SextetsCons(xy);
    SextetsCons(x);
    AppendAssociative(GroupSextets(x[0], x[1], x[2]), tx, ty);
  }

  /** The alphabet characters of the values. */
  function Chars(vs: seq<sextet>): (s: string)
    ensures |s| == |vs|
  {
    seq(|vs|, i requires 0 <= i < |vs| => CharOf(vs[i]))
  }

  /** Values are turned into characters one by one. */
  lemma CharsAppend(a: seq<sextet>, b: seq<sextet>)
    ensures Chars(a + b) == Chars(a) + Chars(b)
  {
  }

  /** Every character of `Chars` is in the alphabet and stands for its value. */
  lemma CharsAlphabet(vs: seq<sextet>)
    ensures AllAlphabet(Chars(vs))
    ensures forall i :: 0 <= i < |vs| ==> ValueOf(Chars(vs)[i]) == vs[i]
  {
    forall i | 0 <= i < |vs| ensures IsAlphabetChar(Chars(vs)[i]) && ValueOf(Chars(vs)[i]) == vs[i] {
      CharOfValue(vs[i]);
    }
  }

  function Padding(n: nat): (s: string)
    ensures |s| == n && forall i :: 0 <= i < n ==> s[i] == Pad
  {
    if n == 0 then [] else [Pad] + Padding(n - 1)
  }

  /**
   * `base64.StdEncoding.EncodeToString`: four characters for every started group of three
   * bytes, alphabet characters first and `=` only as padding at the very end.
   */
  function Encode(b: seq<byte>): (r: string)
    ensures |r| == 4 * ((|b| + 2) / 3)
    ensures PadCount(|b|) <= 2 && PadCount(|b|) <= |r|
    ensures forall i :: 0 <= i < |r| - PadCount(|b|) ==> IsAlphabetChar(r[i])
    ensures forall i :: |r| - PadCount(|b|) <= i < |r| ==> r[i] == Pad
  {
    SextetCount(|b|);
    var chars := Chars(Sextets(b));
    CharsAlphabet(Sextets(b));
    var r := chars + Padding(PadCount(|b|));
    assert forall i :: 0 <= i < |chars| ==> r[i] == chars[i];
    r
  }

  /**
   * The bits that fill up the last value of a partial group are zero: the value after a
   * single byte has its four low bits clear, the value after a pair its two low bits.
   */
  lemma {:induction false} LastSextet(b: seq<byte>)
    requires |b| % 3 != 0
    ensures var vs := Sextets(b);
      && |vs| >= 2
      && (|b| % 3 == 1 ==> vs[|vs| - 1] % 16 == 0)
      && (|b| % 3 == 2 ==> vs[|vs| - 1] % 4 == 0)
    decreases |b|
  {
    if |b| >= 3 {
      LastSextet(b[3..]);
      SextetsCons(b);
      var t := Sextets(b[3..]);
      assert Sextets(b)[|Sextets(b)| - 1] == t[|t| - 1];
    }
  }

  /**
   * The character before the padding encodes zero bits where the input has none, as
   * section 3.5 of RFC 4648 requires of a canonical encoding. With the length, the
   * alphabet and `DecodeEncode`, this leaves one encoding for each input.
   */
  lemma EncodeZeroBits(b: seq<byte>)
    ensures var r := Encode(b);
      && (PadCount(|b|) == 2 ==> |r| >= 4 && ValueOf(r[|r| - 3]) % 16 == 0)
      && (PadCount(|b|) == 1 ==> |r| >= 4 && ValueOf(r[|r| - 2]) % 4 == 0)
  {
    if PadCount(|b|) != 0 {
      var vs := Sextets(b);
      LastSextet(b);
      SextetCount(|b|);
      CharsAlphabet(vs);
      var r := Encode(b);
      assert r == Chars(vs) + Padding(PadCount(|b|));
      assert r[|vs| - 1] == Chars(vs)[|vs| - 1];
    }
  }

  /** The encoding of bytes split after whole groups, from the values of each part. */
  lemma EncodeParts(x: seq<byte>, y: seq<byte>, z: seq<byte>)
    requires |x| % 3 == 0 && |y| % 3 == 0
    ensures Encode(x + (y + z)) == Chars(Sextets(x) + (Sextets(y) + Sextets(z))) + Padding(PadCount(|z|))
  {
    SextetsAppend(x, y + z);
    SextetsAppend(y, z);
    assert PadCount(|x + (y + z)|) == PadCount(|z|);
  }

  /** The characters read back as values. */
  function Values(s: string): (vs: seq<sextet>)
    requires AllAlphabet(s)
    ensures |vs| == |s|
    ensures forall i :: 0 <= i < |s| ==> vs[i] == ValueOf(s[i])
  {
    seq(|s|, i requires 0 <= i < |s| => ValueOf(s[i]))
  }

  /** 6-bit values back to bytes, four values to three bytes; leftover low bits are ignored. */
  function FromSextets(vs: seq<sextet>): seq<byte>
    requires |vs| % 4 != 1
    decreases |vs|
  {
    if |vs| == 0 then []
    else if |vs| == 2 then [First(vs[0], vs[1])]
    else if |vs| == 3 then [First(vs[0], vs[1]), Second(vs[1], vs[2])]
    else [First(vs[0], vs[1]), Second(vs[1], vs[2]), Third(vs[2], vs[3])] + FromSextets(vs[4..])
  }

  /** The first byte of a group: all six bits of the first value and the top two of the second. */
  function First(v0: sextet, v1: sextet): byte {
    v0 * 4 + v1 / 16
  }

  /** The second byte of a group: the low four bits of the second value and the top four of the third. */
  function Second(v1: sextet, v2: sextet): byte {
    v1 % 16 * 16 + v2 / 4
  }

  /** The third byte of a group: the low two bits of the third value and all of the fourth. */
  function Third(v2: sextet, v3: sextet): byte {
    v2 % 4 * 64 + v3
  }

  /** How many `=` the text ends with, counting at most two. */
  function TrailingPads(s: string): nat {
    if |s| >= 2 && s[|s| - 2] == Pad && s[|s| - 1] == Pad then 2
    else if |s| >= 1 && s[|s| - 1] == Pad then 1
    else 0
  }

  /** Padded standard base64 decoding: the inverse the encoding is checked against. */
  function Decode(s: string): Option<seq<byte>>
  {
    if |s| % 4 != 0 then None
    else
      var body := s[..|s| - TrailingPads(s)];
      if AllAlphabet(body) then Some(FromSextets(Values(body))) else None
  }

  /** Characters and values correspond one to one. */
  lemma ValuesOfChars(vs: seq<sextet>)
    ensures AllAlphabet(Chars(vs)) && Values(Chars(vs)) == vs
  {
    CharsAlphabet(vs);
  }

  /** The values of one group of three bytes give those bytes back. */
  lemma GroupArithmetic(b0: byte, b1: byte, b2: byte)
    ensures First(b0 / 4, b0 % 4 * 16 + b1 / 16) == b0
    ensures Second(b0 % 4 * 16 + b1 / 16, b1 % 16 * 4 + b2 / 64) == b1
    ensures Third(b1 % 16 * 4 + b2 / 64, b2 % 64) == b2
  {
  }

  /** Reading a full group of values in front of further values. */
  lemma FromSextetsGroup(b0: byte, b1: byte, b2: byte, rest: seq<sextet>)
    requires |rest| % 4 != 1
    ensures var vs := GroupSextets(b0, b1, b2) + rest;
      |vs| % 4 != 1 && FromSextets(vs) == [b0, b1, b2] + FromSextets(rest)
  {
    var vs := GroupSextets(b0, b1, b2) + rest;
    assert vs[4..] == rest;
    GroupArithmetic(b0, b1, b2);
  }

  /** The number of values and of pad characters for `n` bytes complete whole groups of four. */
  lemma SextetCount(n: nat)
    ensures var k, p := 4 * (n / 3) + RestSextets(n % 3), PadCount(n);
      p <= 2 && k % 4 != 1 && (k + p) % 4 == 0 && (p == 0 || k % 4 == 4 - p) && k + p == 4 * ((n + 2) / 3)
  {
  }

  /** A single byte left over comes back from its two values. */
  lemma FromSextetsLast1(b0: byte)
    ensures FromSextets([b0 / 4, b0 % 4 * 16]) == [b0]
  {
  }

  /** A pair of bytes left over comes back from its three values. */
  lemma FromSextetsLast2(b0: byte, b1: byte)
    ensures FromSextets([b0 / 4, b0 % 4 * 16 + b1 / 16, b1 % 16 * 4]) == [b0, b1]
  {
    GroupArithmetic(b0, b1, 0);
  }

  /** Reading the values of bytes back gives the bytes. */
  lemma {:induction false} FromSextetsOfSextets(b: seq<byte>)
    ensures |Sextets(b)| % 4 != 1
    ensures FromSextets(Sextets(b)) == b
    decreases |b|
  {
    SextetCount(|b|);
    if |b| == 1 {
      FromSextetsLast1(b[0]);
      assert [b[0]] == b;
    } else if |b| == 2 {
      FromSextetsLast2(b[0], b[1]);
      assert [b[0], b[1]] == b;
    } else if |b| >= 3 {
      FromSextetsOfSextets(b[3..]);
      FromSextetsStep(b);
    }
  }

  lemma FromSextetsStep(b: seq<byte>)
    requires |b| >= 3 && |Sextets(b[3..])| % 4 != 1 && FromSextets(Sextets(b[3..])) == b[3..]
    ensures |Sextets(b)| % 4 != 1 && FromSextets(Sextets(b)) == b
  {
    FromSextetsGroup(b[0], b[1], b[2], Sextets(b[3..]));
    assert b == [b[0], b[1], b[2]] + b[3..];
  }

  /** Decoding alphabet characters followed by as much padding as completes the last group. */
  lemma DecodeCharsPadded(vs: seq<sextet>, p: nat)
    requires p <= 2 && (|vs| + p) % 4 == 0 && |vs| % 4 != 1
    requires p == 0 || |vs| % 4 == 4 - p
    ensures Decode(Chars(vs) + Padding(p)) == Some(FromSextets(vs))
  {
    var chars := Chars(vs);
    CharsAlphabet(vs);
    var s := chars + Padding(p);
    assert forall i :: 0 <= i < |chars| ==> s[i] == chars[i];
    assert TrailingPads(s) == p by {
      if p < 2 && |s| >= 2 {
        assert s[|s| - 2] == chars[|s| - 2];
      }
      if p < 1 && |s| >= 1 {
        assert s[|s| - 1] == chars[|s| - 1];
      }
    }
    assert s[..|s| - p] == chars;
    ValuesOfChars(vs);
  }

  /** Decoding an encoding gives back exactly the encoded bytes. */
  lemma DecodeEncode(b: seq<byte>)
    ensures Decode(Encode(b)) == Some(b)
  {
    FromSextetsOfSextets(b);
    SextetCount(|b|);
    DecodeCharsPadded(Sextets(b), PadCount(|b|));
  }

  /** Different byte strings have different encodings. */
  lemma EncodeInjective(a: seq<byte>, b: seq<byte>)
    requires Encode(a) == Encode(b)
    ensures a == b
  {
    DecodeEncode(a);
    DecodeEncode(b);
  }
}
