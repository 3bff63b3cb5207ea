/** Byte strings, hexadecimal digits and percent coding. */
module Bytes {

  /** A character of a byte string. */
  type Byte = c: char | c as int < 256 witness 'a'

  type ByteString = seq<Byte>

  function HexDigit(n: nat): Byte
    requires n < 16
  {
    if n < 10 then ('0' as int + n) as char else ('A' as int + n - 10) as char
  }

  function HexValue(c: Byte): (v: int)
    ensures -1 <= v < 16
  {
    if '0' <= c <= '9' then c as int - '0' as int
    else if 'a' <= c <= 'f' then c as int - 'a' as int + 10
    else if 'A' <= c <= 'F' then c as int - 'A' as int + 10
    else -1
  }

  lemma HexRoundTrip(c: Byte)
    ensures HexValue(HexDigit(c as int / 16)) * 16 + HexValue(HexDigit(c as int % 16)) == c as int
    ensures HexValue(HexDigit(c as int / 16)) >= 0 && HexValue(HexDigit(c as int % 16)) >= 0
  {
  }

  /** %XX for one byte. */
  function Escape(c: Byte): ByteString {
    ['%', HexDigit(c as int / 16), HexDigit(c as int % 16)]
  }

  const UPPER: string := "0123456789ABCDEF"
  const LOWER: string := "0123456789abcdef"

  lemma HexDigitIs(n: nat)
    requires n < 16
    ensures HexDigit(n) == UPPER[n]
  {
  }

  /** Digits are read in both letter cases. */
  lemma HexValueIs(c: Byte, n: nat)
    requires n < 16
    ensures HexValue(c) == n <==> c == UPPER[n] || c == LOWER[n]
  {
  }

  /** %XX is written with capitals, the high digit first. */
  lemma EscapeIs(c: Byte)
    ensures Escape(c) == ['%', UPPER[c as int / 16], UPPER[c as int % 16]]
  {
    hide HexDigit;
    HexDigitIs(c as int / 16);
    HexDigitIs(c as int % 16);
  }

  // ----- percent decoding -----

  /** The string begins with % and two hexadecimal digits. */
  predicate Triple(s: ByteString) {
    |s| > 2 && s[0] == '%' && HexValue(s[1]) >= 0 && HexValue(s[2]) >= 0
  }

  function TripleValue(s: ByteString): Byte
    requires Triple(s)
  {
    (HexValue(s[1]) * 16 + HexValue(s[2])) as char
  }

  function Plain(c: Byte, plusAsSpace: bool): Byte {
    if c == '+' && plusAsSpace then ' ' else c
  }

  function PercentDecode(s: ByteString, plusAsSpace: bool): ByteString {
    if s == [] then []
    else if Triple(s) then [TripleValue(s)] + PercentDecode(s[3..], plusAsSpace)
    else [Plain(s[0], plusAsSpace)] + PercentDecode(s[1..], plusAsSpace)
  }

  method Decode(s: ByteString, plusAsSpace: bool) returns (out: ByteString)
    ensures out == PercentDecode(s, plusAsSpace)
  {
    out := [];
    var i := 0;
    while i < |s|
      invariant i <= |s| && out + PercentDecode(s[i..], plusAsSpace) == PercentDecode(s, plusAsSpace)
      decreases |s| - i
    {
      DecodeStep(out, s, i, plusAsSpace);
      if s[i] == '%' && i + 2 < |s| {
        var hi, lo := HexValue(s[i + 1]), HexValue(s[i + 2]);
        if hi >= 0 && lo >= 0 {
          out := out + [(hi * 16 + lo) as char];
          i := i + 3;
          continue;
        }
      }
      out := out + [if s[i] == '+' && plusAsSpace then ' ' else s[i]];
      i := i + 1;
    }
  }

  lemma DecodeStep(out: ByteString, s: ByteString, i: nat, plusAsSpace: bool)
    requires i < |s|
    ensures if s[i] == '%' && i + 2 < |s| && HexValue(s[i + 1]) >= 0 && HexValue(s[i + 2]) >= 0
            then out + PercentDecode(s[i..], plusAsSpace)
                 == out + [(HexValue(s[i + 1]) * 16 + HexValue(s[i + 2])) as char] + PercentDecode(s[i + 3..], plusAsSpace)
            else out + PercentDecode(s[i..], plusAsSpace)
                 == out + [Plain(s[i], plusAsSpace)] + PercentDecode(s[i + 1..], plusAsSpace)
  {
    assert s[i..][1..] == s[i + 1..];
    if Triple(s[i..]) {
      assert s[i..][3..] == s[i + 3..];
    }
  }

  lemma {:induction false} DecodeShrinks(s: ByteString, plusAsSpace: bool)
    ensures |PercentDecode(s, plusAsSpace)| <= |s|
    decreases |s|
  {
    if s != [] {
      DecodeShrinks(if Triple(s) then s[3..] else s[1..], plusAsSpace);
    }
  }

  /** Decoding leaves alone exactly what holds no valid triple: a percent sign without two digits behind it
      stays. */
  lemma {:induction false} DecodeKeeps(s: ByteString)
    ensures PercentDecode(s, false) == s <==> forall i :: 0 <= i < |s| ==> !Triple(s[i..])
    decreases |s|
  {
    if s != [] {
      assert s[0..] == s;
      if Triple(s) {
        DecodeShrinks(s[3..], false);
      } else {
        DecodeKeeps(s[1..]);
        assert forall i :: 0 <= i < |s[1..]| ==> s[1..][i..] == s[i + 1..];
        assert forall i :: 1 <= i < |s| ==> s[i..] == s[1..][i - 1..];
        assert PercentDecode(s, false)[1..] == PercentDecode(s[1..], false) && s == [s[0]] + s[1..];
      }
    }
  }

  /** Without a valid triple each character is decoded alone: a plus is a space where pluses are. */
  lemma {:induction false} DecodePlain(s: ByteString, plusAsSpace: bool)
    requires forall i :: 0 <= i < |s| ==> !Triple(s[i..])
    ensures |PercentDecode(s, plusAsSpace)| == |s|
    ensures forall i :: 0 <= i < |s| ==>
              PercentDecode(s, plusAsSpace)[i] == if s[i] == '+' && plusAsSpace then ' ' else s[i]
  {
    if s != [] {
      assert s[0..] == s;
      assert forall i :: 0 <= i < |s[1..]| ==> s[1..][i..] == s[i + 1..];
      DecodePlain(s[1..], plusAsSpace);
    }
  }

  // ----- percent encoding -----

  predicate Unreserved(c: Byte) {
    ('A' <= c <= 'Z') || ('a' <= c <= 'z') || ('0' <= c <= '9') || c == '-' || c == '_' || c == '.' || c == '~'
  }

  function EncodeByte(c: Byte, spaceAsPlus: bool): ByteString {
    if Unreserved(c) then [c]
    else if c == ' ' && spaceAsPlus then ['+']
    else Escape(c)
  }

  function PercentEncode(s: ByteString, spaceAsPlus: bool): ByteString {
    if s == [] then [] else EncodeByte(s[0], spaceAsPlus) + PercentEncode(s[1..], spaceAsPlus)
  }

  lemma EncodeNext(a: ByteString, b: ByteString, spaceAsPlus: bool)
    requires a != []
    ensures PercentEncode(a, spaceAsPlus) == EncodeByte(a[0], spaceAsPlus) + PercentEncode(a[1..], spaceAsPlus)
    ensures PercentEncode(a + b, spaceAsPlus) == EncodeByte(a[0], spaceAsPlus) + PercentEncode(a[1..] + b, spaceAsPlus)
  {
    hide EncodeByte;
    assert (a + b)[1..] == a[1..] + b;
  }

  lemma ConcatThree(a: ByteString, b: ByteString, c: ByteString)
    ensures (a + b) + c == a + (b + c)
  {
  }

  lemma {:induction false} PercentEncodeConcat(a: ByteString, b: ByteString, spaceAsPlus: bool)
    ensures PercentEncode(a + b, spaceAsPlus) == PercentEncode(a, spaceAsPlus) + PercentEncode(b, spaceAsPlus)
  {
    if a == [] {
      assert a + b == b;
    } else {
      hide PercentEncode, EncodeByte;
      EncodeNext(a, b, spaceAsPlus);
      PercentEncodeConcat(a[1..], b, spaceAsPlus);
      ConcatThree(EncodeByte(a[0], spaceAsPlus), PercentEncode(a[1..], spaceAsPlus), PercentEncode(b, spaceAsPlus));
    }
  }

  lemma PercentEncodeOne(s: ByteString, i: nat, spaceAsPlus: bool)
    requires i < |s|
    ensures PercentEncode(s[..i + 1], spaceAsPlus) == PercentEncode(s[..i], spaceAsPlus) + EncodeByte(s[i], spaceAsPlus)
  {
    assert s[..i + 1] == s[..i] + [s[i]];
    PercentEncodeConcat(s[..i], [s[i]], spaceAsPlus);
    assert PercentEncode([s[i]], spaceAsPlus) == EncodeByte(s[i], spaceAsPlus);
  }

  /** A space is a plus in a form and a triple elsewhere; a plus is always a triple. */
  lemma SpaceAndPlus(rest: ByteString)
    ensures PercentEncode([' '] + rest, true) == "+" + PercentEncode(rest, true)
    ensures PercentEncode([' '] + rest, false) == "%20" + PercentEncode(rest, false)
    ensures PercentEncode(['+'] + rest, true) == "%2B" + PercentEncode(rest, true)
  {
    assert ([' '] + rest)[1..] == rest && (['+'] + rest)[1..] == rest;
  }

  lemma {:induction false} EncodeGrows(s: ByteString, spaceAsPlus: bool)
    ensures |PercentEncode(s, spaceAsPlus)| >= |s|
  {
    if s != [] {
      EncodeGrows(s[1..], spaceAsPlus);
    }
  }

  /** Encoding leaves a string alone exactly if it has only unreserved characters. */
  lemma {:induction false} EncodeKeeps(s: ByteString, spaceAsPlus: bool)
    ensures PercentEncode(s, spaceAsPlus) == s <==> forall c :: c in s ==> Unreserved(c)
  {
    if s != [] {
      var code, rest := EncodeByte(s[0], spaceAsPlus), PercentEncode(s[1..], spaceAsPlus);
      EncodeKeeps(s[1..], spaceAsPlus);
      EncodeGrows(s[1..], spaceAsPlus);
      assert s == [s[0]] + s[1..] && forall c :: c in s <==> c == s[0] || c in s[1..];
      if Unreserved(s[0]) {
        assert PercentEncode(s, spaceAsPlus)[1..] == rest;
      } else if |code| == 1 {
        assert PercentEncode(s, spaceAsPlus)[0] == '+';
      }
    }
  }

  method Encode(s: ByteString, spaceAsPlus: bool) returns (out: ByteString)
    ensures out == PercentEncode(s, spaceAsPlus)
  {
    out := [];
    for i := 0 to |s|
      invariant out == PercentEncode(s[..i], spaceAsPlus)
    {
      var c := s[i];
      PercentEncodeOne(s, i, spaceAsPlus);
      if Unreserved(c) {
        out := out + [c];
      } else if c == ' ' && spaceAsPlus {
        out := out + ['+'];
      } else {
        out := PushEscape(out, c);
      }
    }
    assert s[..|s|] == s;
  }

  /** Pushes %, the high and the low digit, one after the other. */
  method PushEscape(out: ByteString, c: Byte) returns (r: ByteString)
    ensures r == out + Escape(c)
  {
    r := out + ['%'];
    r := r + [HexDigit(c as int / 16)];
    r := r + [HexDigit(c as int % 16)];
  }

  /** One byte is decoded from its code, whatever follows. */
  lemma DecodeCode(c: Byte, rest: ByteString, spaceAsPlus: bool)
    ensures PercentDecode(EncodeByte(c, spaceAsPlus) + rest, spaceAsPlus) == [c] + PercentDecode(rest, spaceAsPlus)
  {
    var code := EncodeByte(c, spaceAsPlus);
    HexRoundTrip(c);
    assert (code + rest)[|code|..] == rest;
  }

  lemma {:induction false} DecodeEncode(s: ByteString, spaceAsPlus: bool)
    ensures PercentDecode(PercentEncode(s, spaceAsPlus), spaceAsPlus) == s
  {
    if s != [] {
      hide EncodeByte, PercentDecode;
      DecodeEncode(s[1..], spaceAsPlus);
      DecodeCode(s[0], PercentEncode(s[1..], spaceAsPlus), spaceAsPlus);
    }
  }

  /** The letters of an encoded string: no separator of a form appears in it. */
  predicate Encoded(c: Byte) {
    Unreserved(c) || c == '+' || c == '%'
  }

  lemma {:induction false} EncodeIsPlain(s: ByteString, spaceAsPlus: bool)
    ensures forall k :: 0 <= k < |PercentEncode(s, spaceAsPlus)| ==> Encoded(PercentEncode(s, spaceAsPlus)[k])
  {
    if s != [] {
      EncodeIsPlain(s[1..], spaceAsPlus);
    }
  }
}
