/** `CString::Base64Encode` (without wrapping) and `CString::Base64Decode`. */
module Base64 {
  import opened Octets
  import opened Strings

  function Digit(x: nat): char
    requires x < 64
  {
    if x < 26 then 'A' + x as char
    else if x < 52 then 'a' + (x - 26) as char
    else if x < 62 then '0' + (x - 52) as char
    else if x == 62 then '+'
    else '/'
  }

  /** The table's value of a character; 255 marks a character outside the alphabet. */
  function DigitValue(c: char): Byte {
    if 'A' <= c <= 'Z' then (c - 'A') as int
    else if 'a' <= c <= 'z' then (c - 'a') as int + 26
    else if '0' <= c <= '9' then (c - '0') as int + 52
    else if c == '+' then 62
    else if c == '/' then 63
    else 255
  }

  lemma DigitInverse(x: nat)
    requires x < 64
    ensures DigitValue(Digit(x)) == x && Digit(x) != '='
  {
  }

  /** The alphabet of section 4 of RFC 4648. */
  lemma DigitIs(x: nat)
    requires x < 64
    ensures x < 26 ==> 'A' <= Digit(x) <= 'Z' && Digit(x) as int == 'A' as int + x
    ensures 26 <= x < 52 ==> 'a' <= Digit(x) <= 'z' && Digit(x) as int == 'a' as int + x - 26
    ensures 52 <= x < 62 ==> '0' <= Digit(x) <= '9' && Digit(x) as int == '0' as int + x - 52
    ensures x == 62 ==> Digit(x) == '+'
    ensures x == 63 ==> Digit(x) == '/'
  {
  }

  function Encode(s: seq<Byte>): string {
    if s == [] then ""
    else if |s| == 1 then [Digit(s[0] / 4), Digit(s[0] % 4 * 16), '=', '=']
    else if |s| == 2 then
      [Digit(s[0] / 4), Digit(s[0] % 4 * 16 + s[1] / 16), Digit(s[1] % 16 * 4), '=']
    else
      [Digit(s[0] / 4), Digit(s[0] % 4 * 16 + s[1] / 16), Digit(s[1] % 16 * 4 + s[2] / 64), Digit(s[2] % 64)]
      + Encode(s[3..])
  }

  /** The table value at a position; the terminating NUL behind the text is outside the alphabet. */
  function ValueAt(t: string, i: nat): Byte {
    if i < |t| then DigitValue(t[i]) else 255
  }

  function First(c: Byte, c1: Byte): Byte { c * 4 % 256 + c1 / 16 % 4 }

  function Second(c1: Byte, c: Byte): Byte { c1 % 16 * 16 + c / 4 % 16 }

  /** The low two bits of c above the bits of d; a d outside the alphabet sets every bit. */
  function Third(c: Byte, d: Byte): Byte { if d < 64 then c % 4 * 64 + d else 255 }

  /** Four characters at a time, stopping at the padding, whatever the text. */
  function DecodeGroups(t: string): seq<Byte> {
    if t == "" then []
    else
      var c, c1 := ValueAt(t, 0), ValueAt(t, 1);
      var b0 := First(c, c1);
      if |t| <= 2 then [b0]
      else if t[2] == '=' then [b0]
      else
        var c2 := ValueAt(t, 2);
        var b1 := Second(c1, c2);
        if |t| <= 3 then [b0, b1]
        else if t[3] == '=' then [b0, b1]
        else [b0, b1, Third(c2, ValueAt(t, 3))] + DecodeGroups(t[4..])
  }

  /** Only the characters of the alphabet have a value below 64. */
  lemma OnlyDigits(c: char)
    ensures DigitValue(c) < 64 <==> exists x :: 0 <= x < 64 && Digit(x) == c
    ensures DigitValue(c) < 64 || DigitValue(c) == 255
  {
    if DigitValue(c) < 64 {
      assert Digit(DigitValue(c)) == c;
    }
    forall x | 0 <= x < 64 && Digit(x) == c ensures DigitValue(c) < 64 {
      DigitInverse(x);
    }
  }

  /** Any text, four characters at a time: the six bits of each are put together to bytes. A group ends
      early at padding or at the end of the text, and then gives one byte or two. */
  lemma DecodeMeans(t: string)
    ensures t == "" ==> DecodeGroups(t) == []
    ensures |t| == 1 ==> DecodeGroups(t) == [First(DigitValue(t[0]), 255)]
    ensures |t| == 2 || (|t| > 2 && t[2] == '=') ==>
              DecodeGroups(t) == [First(DigitValue(t[0]), DigitValue(t[1]))]
    ensures |t| >= 3 && t[2] != '=' && (|t| == 3 || t[3] == '=') ==>
              DecodeGroups(t) == [First(DigitValue(t[0]), DigitValue(t[1])),
                                  Second(DigitValue(t[1]), DigitValue(t[2]))]
    ensures |t| >= 4 && t[2] != '=' && t[3] != '=' ==>
              DecodeGroups(t) == [First(DigitValue(t[0]), DigitValue(t[1])),
                                  Second(DigitValue(t[1]), DigitValue(t[2])),
                                  Third(DigitValue(t[2]), DigitValue(t[3]))] + DecodeGroups(t[4..])
  {
  }

  // The bits of two values, and what a character outside the alphabet leaves of them: all of its own
  // bits set.

  lemma FirstIs(v: Byte, w: Byte)
    ensures v < 64 && w < 64 ==> First(v, w) == v * 4 + w / 16
    ensures v < 64 ==> First(v, 255) == v * 4 + 3
    ensures w < 64 ==> First(255, w) == 252 + w / 16
    ensures First(255, 255) == 255
  {
  }

  lemma SecondIs(v: Byte, w: Byte)
    ensures v < 64 && w < 64 ==> Second(v, w) == v % 16 * 16 + w / 4
    ensures v < 64 ==> Second(v, 255) == v % 16 * 16 + 15
    ensures w < 64 ==> Second(255, w) == 240 + w / 4
    ensures Second(255, 255) == 255
  {
  }

  lemma ThirdIs(v: Byte, w: Byte)
    ensures v < 64 && w < 64 ==> Third(v, w) == v % 4 * 64 + w
    ensures w < 64 ==> Third(255, w) == 192 + w
    ensures Third(v, 255) == 255
  {
  }

  function Decode(t: string): seq<Byte> {
    DecodeGroups(Remove(t, {'\r', '\n'}))
  }

  /** Three bytes are four characters of six bits each, the most significant first; one or two bytes
      at the end are followed by zero bits and padding. */
  lemma EncodeBits(a: Byte, b: Byte, c: Byte, rest: seq<Byte>, v0: nat, v1: nat, v2: nat, v3: nat)
    requires v0 < 64 && v1 < 64 && v2 < 64 && v3 < 64
    ensures ((v0 * 64 + v1) * 64 + v2) * 64 + v3 == a as int * 0x1_0000 + b as int * 0x100 + c as int ==>
              Encode([a, b, c] + rest) == [Digit(v0), Digit(v1), Digit(v2), Digit(v3)] + Encode(rest)
    ensures (v0 * 64 + v1) * 64 + v2 == (a as int * 0x100 + b as int) * 4 ==>
              Encode([a, b]) == [Digit(v0), Digit(v1), Digit(v2), '=']
    ensures v0 * 64 + v1 == a as int * 16 ==> Encode([a]) == [Digit(v0), Digit(v1), '=', '=']
  {
    assert ([a, b, c] + rest)[3..] == rest;
    Split64((v0 * 64 + v1) * 64 + v2, v3, (a / 4 * 64 + (a % 4 * 16 + b / 16)) * 64 + (b % 16 * 4 + c / 64), c % 64);
    Split64(v0 * 64 + v1, v2, a / 4 * 64 + (a % 4 * 16 + b / 16), b % 16 * 4 + c / 64);
    Split64(v0 * 64 + v1, v2, a / 4 * 64 + (a % 4 * 16 + b / 16), b % 16 * 4);
    Split64(v0, v1, a / 4, a % 4 * 16 + b / 16);
    Split64(v0, v1, a / 4, a % 4 * 16);
    assert a == a / 4 * 4 + a % 4 && b == b / 16 * 16 + b % 16 && c == c / 64 * 64 + c % 64;
  }

  lemma Split64(x: nat, u: nat, y: nat, w: nat)
    requires u < 64 && w < 64
    ensures x * 64 + u == y * 64 + w <==> x == y && u == w
  {
  }

  lemma {:induction false} EncodeLength(s: seq<Byte>)
    ensures |Encode(s)| == (|s| + 2) / 3 * 4
  {
    if |s| > 2 {
      EncodeLength(s[3..]);
      assert (|s| + 2) / 3 == (|s| - 3 + 2) / 3 + 1;
    }
  }

  lemma EncodePadded(s: seq<Byte>)
    ensures |Encode(s)| % 4 == 0
  {
    EncodeLength(s);
    FourTimes(|Encode(s)|, (|s| + 2) / 3);
  }

  lemma FourTimes(length: nat, n: nat)
    requires length == n * 4
    ensures length % 4 == 0
  {
  }

  /** Line ends are ignored wherever they stand. */
  lemma LineEndsIgnored(a: string, c: char, b: string)
    requires c == '\r' || c == '\n'
    ensures Decode(a + ([c] + b)) == Decode(a + b)
  {
    RemoveConcat(a, [c] + b, {'\r', '\n'});
    RemoveConcat(a, b, {'\r', '\n'});
    assert ([c] + b)[1..] == b;
  }

  lemma {:induction false} EncodeChars(s: seq<Byte>, c: char)
    requires c in Encode(s)
    ensures c == '=' || DigitValue(c) < 64
  {
    if |s| > 2 && c in Encode(s[3..]) {
      EncodeChars(s[3..], c);
    }
  }

  lemma FirstInverse(a: Byte, b: Byte)
    ensures First(a / 4, a % 4 * 16 + b / 16) == a
  {
    var high, low := a % 4, b / 16;
    assert (high * 16 + low) / 16 == high;
  }

  lemma SecondInverse(a: Byte, b: Byte, c: Byte)
    ensures Second(a % 4 * 16 + b / 16, b % 16 * 4 + c / 64) == b
  {
    var x, y, z, w := a % 4, b / 16, b % 16, c / 64;
    assert (x * 16 + y) % 16 == y;
    assert (z * 4 + w) / 4 == z;
  }

  lemma ThirdInverse(b: Byte, c: Byte)
    ensures Third(b % 16 * 4 + c / 64, c % 64) == c
  {
    var z, w := b % 16, c / 64;
    assert (z * 4 + w) % 4 == w;
  }

  /** The four characters of three bytes, of which the last may be missing. */
  lemma GroupInverse(a: Byte, b: Byte, c: Byte)
    ensures var v0, v1, v2, v3 := a / 4, a % 4 * 16 + b / 16, b % 16 * 4 + c / 64, c % 64;
            && DigitValue(Digit(v0)) == v0 && DigitValue(Digit(v1)) == v1
            && DigitValue(Digit(v2)) == v2 && DigitValue(Digit(v3)) == v3
            && Digit(v2) != '=' && Digit(v3) != '='
            && First(v0, v1) == a && Second(v1, v2) == b && Third(v2, v3) == c
  {
    FirstInverse(a, b);
    SecondInverse(a, b, c);
    ThirdInverse(b, c);
    DigitInverse(a / 4);
    DigitInverse(a % 4 * 16 + b / 16);
    DigitInverse(b % 16 * 4 + c / 64);
    DigitInverse(c % 64);
  }

  /** Whole groups are decoded one after the other. */
  lemma GroupFront(v0: nat, v1: nat, v2: nat, v3: nat, rest: string)
    requires v0 < 64 && v1 < 64 && v2 < 64 && v3 < 64
    requires DigitValue(Digit(v0)) == v0 && DigitValue(Digit(v1)) == v1
    requires DigitValue(Digit(v2)) == v2 && DigitValue(Digit(v3)) == v3
    requires Digit(v2) != '=' && Digit(v3) != '='
    ensures DecodeGroups([Digit(v0), Digit(v1), Digit(v2), Digit(v3)] + rest)
         == [First(v0, v1), Second(v1, v2), Third(v2, v3)] + DecodeGroups(rest)
  {
    assert ([Digit(v0), Digit(v1), Digit(v2), Digit(v3)] + rest)[4..] == rest;
  }

  /** The last group, one or two characters of it padding. */
  lemma PaddedGroup(v0: nat, v1: nat, v2: nat)
    requires v0 < 64 && v1 < 64 && v2 < 64
    requires DigitValue(Digit(v0)) == v0 && DigitValue(Digit(v1)) == v1
    requires DigitValue(Digit(v2)) == v2 && Digit(v2) != '='
    ensures DecodeGroups([Digit(v0), Digit(v1), '=', '=']) == [First(v0, v1)]
    ensures DecodeGroups([Digit(v0), Digit(v1), Digit(v2), '=']) == [First(v0, v1), Second(v1, v2)]
  {
  }

  lemma LastOne(a: Byte)
    ensures DecodeGroups(Encode([a])) == [a]
  {
    GroupInverse(a, 0, 0);
    PaddedGroup(a / 4, a % 4 * 16, 0);
    assert Encode([a]) == [Digit(a / 4), Digit(a % 4 * 16), '=', '='];
  }

  lemma LastTwo(a: Byte, b: Byte)
    ensures DecodeGroups(Encode([a, b])) == [a, b]
  {
    GroupInverse(a, b, 0);
    PaddedGroup(a / 4, a % 4 * 16 + b / 16, b % 16 * 4);
    assert Encode([a, b]) == [Digit(a / 4), Digit(a % 4 * 16 + b / 16), Digit(b % 16 * 4), '='];
  }

  lemma EncodeFront(s: seq<Byte>)
    requires |s| > 2
    ensures var a, b, c := s[0], s[1], s[2];
            Encode(s) == [Digit(a / 4), Digit(a % 4 * 16 + b / 16), Digit(b % 16 * 4 + c / 64), Digit(c % 64)]
                         + Encode(s[3..])
  {
  }

  lemma ThreeFirst(s: seq<Byte>)
    requires |s| > 2
    ensures DecodeGroups(Encode(s)) == [s[0], s[1], s[2]] + DecodeGroups(Encode(s[3..]))
  {
    var a, b, c := s[0], s[1], s[2];
    EncodeFront(s);
    GroupInverse(a, b, c);
    GroupFront(a / 4, a % 4 * 16 + b / 16, b % 16 * 4 + c / 64, c % 64, Encode(s[3..]));
  }

  lemma {:induction false} DecodeEncodeGroups(s: seq<Byte>)
    ensures DecodeGroups(Encode(s)) == s
  {
    if |s| > 2 {
      DecodeEncodeGroups(s[3..]);
      ThreeFirst(s);
      assert s == [s[0], s[1], s[2]] + s[3..];
    } else if |s| == 2 {
      LastTwo(s[0], s[1]);
      assert s == [s[0], s[1]];
    } else if |s| == 1 {
      LastOne(s[0]);
      assert s == [s[0]];
    }
  }

  /** Decoding undoes encoding for every byte string. */
  lemma DecodeEncode(s: seq<Byte>)
    ensures Decode(Encode(s)) == s
  {
    forall c | c in Encode(s) ensures c !in {'\r', '\n'} {
      EncodeChars(s, c);
    }
    RemoveNothing(Encode(s), {'\r', '\n'});
    DecodeEncodeGroups(s);
  }
}
