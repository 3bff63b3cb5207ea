/** Base64 (RFC 4648, section 4) and the comparison of base64 digests. */
module Base64 {
  import opened Basics
  import opened Bytes

  // ----- the alphabet -----

  function Letter(n: nat): Byte
    requires n < 64
  {
    if n < 26 then ('A' as int + n) as char
    else if n < 52 then ('a' as int + n - 26) as char
    else if n < 62 then ('0' as int + n - 52) as char
    else if n == 62 then '+' else '/'
  }

  function Digit(c: Byte): (v: int)
    ensures -1 <= v < 64
  {
    if 'A' <= c <= 'Z' then c as int - 'A' as int
    else if 'a' <= c <= 'z' then c as int - 'a' as int + 26
    else if '0' <= c <= '9' then c as int - '0' as int + 52
    else if c == '+' then 62 else if c == '/' then 63 else -1
  }

  lemma LetterDigit(n: nat)
    requires n < 64
    ensures Digit(Letter(n)) == n && Letter(n) != '='
  {
  }

  /** The standard alphabet: capitals, small letters and figures, each in order, then + and /. */
  lemma AlphabetIs(n: nat)
    requires n < 63
    ensures Letter(0) == 'A' && Letter(26) == 'a' && Letter(52) == '0' && Letter(62) == '+' && Letter(63) == '/'
    ensures n !in {25, 51, 61, 62} ==> Letter(n + 1) as int == Letter(n) as int + 1
  {
  }

  // ----- encoding -----

  /** The four digits of three bytes. */
  function Quad(a: Byte, b: Byte, c: Byte): (q: ByteString)
    ensures |q| == 4
  {
    var n := a as int * 65536 + b as int * 256 + c as int;
    [Letter(n / 262144), Letter(n / 4096 % 64), Letter(n / 64 % 64), Letter(n % 64)]
  }

  lemma QuadDigits(a: Byte, b: Byte, c: Byte)
    ensures var q := Quad(a, b, c);
            && Digit(q[0]) == a as int / 4 && Digit(q[1]) == a as int % 4 * 16 + b as int / 16
            && Digit(q[2]) == b as int % 16 * 4 + c as int / 64 && Digit(q[3]) == c as int % 64
            && '=' !in q
  {
    hide Digit, Letter;
    var n := a as int * 65536 + b as int * 256 + c as int;
    SixBits(a as int, b as int, c as int);
    LetterDigit(n / 262144);
    LetterDigit(n / 4096 % 64);
    LetterDigit(n / 64 % 64);
    LetterDigit(n % 64);
  }

  lemma SixBits(a: nat, b: nat, c: nat)
    requires a < 256 && b < 256 && c < 256
    ensures var n := a * 65536 + b * 256 + c;
            && n / 262144 == a / 4 && n / 4096 % 64 == a % 4 * 16 + b / 16
            && n / 64 % 64 == b % 16 * 4 + c / 64 && n % 64 == c % 64
  {
    FourDigits(a / 4, a % 4 * 16 + b / 16, b % 16 * 4 + c / 64, c % 64);
  }

  lemma FourDigits(p: nat, q: nat, r: nat, t: nat)
    requires p < 64 && q < 64 && r < 64 && t < 64
    ensures var n := p * 262144 + q * 4096 + r * 64 + t;
            n / 262144 == p && n / 4096 % 64 == q && n / 64 % 64 == r && n % 64 == t
  {
    var n := p * 262144 + q * 4096 + r * 64 + t;
    assert n / 64 == p * 4096 + q * 64 + r;
    assert n / 4096 == p * 64 + q;
  }

  /** Missing bytes count as zero. */
  function ByteAt(x: ByteString, i: nat): Byte {
    if i < |x| then x[i] else 0 as char
  }

  function FirstQuad(x: ByteString): (q: ByteString)
    ensures |q| == 4
  {
    Quad(ByteAt(x, 0), ByteAt(x, 1), ByteAt(x, 2))
  }

  /** The digits of x, without padding. */
  function Digits(x: ByteString): ByteString {
    if x == [] then []
    else if |x| < 3 then FirstQuad(x)[..|x| + 1]
    else FirstQuad(x) + Digits(x[3..])
  }

  function Padding(n: nat): ByteString {
    if n % 3 == 1 then "==" else if n % 3 == 2 then "=" else ""
  }

  function Encoding(x: ByteString): ByteString {
    Digits(x) + Padding(|x|)
  }

  /** Every group of up to three bytes takes four characters, padded at the end. */
  lemma {:induction false} EncodingLength(x: ByteString)
    ensures |Encoding(x)| == 4 * ((|x| + 2) / 3) && |Digits(x)| == (4 * |x| + 2) / 3
    decreases |x|
  {
    hide FirstQuad;
    var n := |x|;
    if n >= 3 {
      EncodingLength(x[3..]);
      assert |Digits(x)| == 4 + |Digits(x[3..])| && (4 * n + 2) / 3 == 4 + (4 * (n - 3) + 2) / 3;
    }
    hide Digits;
    PaddedLength(n);
  }

  lemma PaddedLength(n: nat)
    ensures (4 * n + 2) / 3 + |Padding(n)| == 4 * ((n + 2) / 3)
  {
    var q := n / 3;
    if n % 3 == 0 {
      assert n == 3 * q;
    } else if n % 3 == 1 {
      assert n == 3 * q + 1;
    } else {
      assert n == 3 * q + 2;
    }
  }

  method Encode(x: ByteString) returns (out: ByteString)
    ensures out == Encoding(x)
  {
    out := [];
    var i := 0;
    assert x[0..] == x && x[|x|..] == [] && Encoding([]) == [];
    hide Encoding;
    while i < |x|
      invariant i <= |x| ==> out + Encoding(x[i..]) == Encoding(x)
      invariant i >= |x| ==> out == Encoding(x)
    {
      out := EncodeGroup(out, x, i);
      i := i + 3;
    }
  }

  /** Pushes four characters for the up to three bytes at i. */
  method EncodeGroup(out: ByteString, x: ByteString, i: nat) returns (r: ByteString)
    requires i < |x|
    ensures r + (if i + 3 <= |x| then Encoding(x[i + 3..]) else []) == out + Encoding(x[i..])
  {
    hide Encoding, Letter;
    GroupAt(out, x, i);
    var n := ByteAt(x, i) as int * 65536 + ByteAt(x, i + 1) as int * 256 + ByteAt(x, i + 2) as int;
    r := out + [Letter(n / 262144)];
    r := r + [Letter(n / 4096 % 64)];
    r := r + [if i + 1 < |x| then Letter(n / 64 % 64) else '='];
    r := r + [if i + 2 < |x| then Letter(n % 64) else '='];
    assert r == out + Group(x[i..]);
  }

  /** The first four characters of an encoding. */
  function Group(x: ByteString): ByteString
    requires x != []
  {
    var q := FirstQuad(x);
    [q[0], q[1], if |x| > 1 then q[2] else '=', if |x| > 2 then q[3] else '=']
  }

  lemma GroupAt(out: ByteString, x: ByteString, i: nat)
    requires i < |x|
    ensures forall k: nat :: ByteAt(x[i..], k) == ByteAt(x, i + k)
    ensures out + Group(x[i..]) + (if i + 3 <= |x| then Encoding(x[i + 3..]) else []) == out + Encoding(x[i..])
  {
    var y := x[i..];
    if |y| >= 3 {
      assert y[3..] == x[i + 3..];
      assert Padding(|y| - 3) == Padding(|y|);
      assert FirstQuad(y) == Group(y);
    } else {
      assert Group(y) == FirstQuad(y)[..|y| + 1] + Padding(|y|);
    }
  }

  // ----- decoding -----

  /** How many values the bits still pending can take; `bits` is the count kept by the decoder. */
  function Unit(bits: nat): (u: nat)
    ensures u > 0
  {
    if bits == 0 then 1 else if bits == 2 then 4 else if bits == 4 then 16 else 64
  }

  predicate Pending(p: nat, bits: nat) {
    bits <= 6 && bits % 2 == 0 && p < Unit(bits)
  }

  /** What one more digit completes: no byte or one, and the bits left over. */
  function Step(p: nat, bits: nat, d: nat): (r: (ByteString, nat, nat))
    requires Pending(p, bits) && d < 64
    ensures Pending(r.1, r.2)
  {
    var n := p * 64 + d;
    if bits == 0 then ([], d, 6)
    else if bits == 2 then ([n as char], 0, 0)
    else if bits == 4 then ([(n / 4) as char], n % 4, 2)
    else ([(n / 16) as char], n % 16, 4)
  }

  /** The bytes of a run of digits when `bits` bits, with value p, are pending; the run ends at the
      padding, and a character outside the alphabet before it is an error. */
  function DecodeFrom(s: ByteString, p: nat, bits: nat): Option<ByteString>
    requires Pending(p, bits)
  {
    if s == [] || s[0] == '=' then Some([])
    else if Digit(s[0]) < 0 then None
    else
      var (bytes, p', bits') := Step(p, bits, Digit(s[0]));
      match DecodeFrom(s[1..], p', bits')
      case None => None
      case Some(rest) => Some(bytes + rest)
  }

  function Decoding(s: ByteString): Option<ByteString> {
    DecodeFrom(s, 0, 0)
  }

  /** Where the digits of s end: at the first = or at the end. */
  function DigitsEnd(s: ByteString): (k: nat)
    ensures k <= |s|
  {
    if s == [] || s[0] == '=' then 0 else 1 + DigitsEnd(s[1..])
  }

  ghost predicate Legible(s: ByteString) {
    forall k :: 0 <= k < DigitsEnd(s) ==> Digit(s[k]) >= 0
  }

  lemma LegibleNext(s: ByteString)
    requires s != [] && s[0] != '='
    ensures DigitsEnd(s) == 1 + DigitsEnd(s[1..])
    ensures Legible(s) <==> Digit(s[0]) >= 0 && Legible(s[1..])
  {
    hide Digit;
    var rest := s[1..];
    assert forall k :: 0 <= k < |rest| ==> rest[k] == s[k + 1];
    if Digit(s[0]) >= 0 && Legible(rest) {
      forall k | 0 <= k < DigitsEnd(s) ensures Digit(s[k]) >= 0 {
        assert k == 0 || Digit(rest[k - 1]) >= 0;
      }
    }
  }

  lemma StepBits(p: nat, bits: nat, d: nat)
    requires Pending(p, bits) && d < 64
    ensures 8 * |Step(p, bits, d).0| + Step(p, bits, d).2 == bits + 6
  {
  }

  /** Decoding fails exactly on an illegal character before the first =, never on a length; k digits
      give the whole bytes among their 6k bits. */
  lemma {:induction false} DecodeFromFails(s: ByteString, p: nat, bits: nat)
    requires Pending(p, bits)
    ensures DecodeFrom(s, p, bits).Some? <==> Legible(s)
    ensures DecodeFrom(s, p, bits).Some? ==> |DecodeFrom(s, p, bits).value| == (bits + 6 * DigitsEnd(s)) / 8
  {
    if s != [] && s[0] != '=' {
      hide Digit, Step, Legible;
      LegibleNext(s);
      if Digit(s[0]) >= 0 {
        var (bytes, p', bits') := Step(p, bits, Digit(s[0]));
        StepBits(p, bits, Digit(s[0]));
        DecodeFromFails(s[1..], p', bits');
      }
    }
  }

  lemma DecodingFails(s: ByteString)
    ensures Decoding(s).Some? <==> forall k :: 0 <= k < DigitsEnd(s) ==> Digit(s[k]) >= 0
    ensures Decoding(s).Some? ==> |Decoding(s).value| == 6 * DigitsEnd(s) / 8
  {
    DecodeFromFails(s, 0, 0);
  }

  /** What stands behind the first = does not matter. */
  lemma {:induction false} DecodingStopsAtPadding(s: ByteString, t: ByteString, p: nat, bits: nat)
    requires Pending(p, bits) && '=' !in s
    ensures DecodeFrom(s + (['='] + t), p, bits) == DecodeFrom(s, p, bits)
    decreases |s|
  {
    hide Digit, Step;
    var all := s + (['='] + t);
    if s == [] {
      assert all == ['='] + t;
    } else {
      assert all[1..] == s[1..] + (['='] + t) && s[0] in s;
      if Digit(s[0]) >= 0 {
        var (bytes, p', bits') := Step(p, bits, Digit(s[0]));
        DecodingStopsAtPadding(s[1..], t, p', bits');
      }
    }
  }

  lemma DecodeNext(c: Byte, rest: ByteString, p: nat, bits: nat)
    requires Pending(p, bits) && Digit(c) >= 0
    ensures var (bytes, p', bits') := Step(p, bits, Digit(c));
            DecodeFrom([c] + rest, p, bits)
            == match DecodeFrom(rest, p', bits') case None => None case Some(more) => Some(bytes + more)
  {
    assert ([c] + rest)[1..] == rest;
  }

  lemma EmptyDecodes(p: nat, bits: nat)
    requires Pending(p, bits)
    ensures DecodeFrom([], p, bits) == Some([])
  {
  }

  /** One digit left over gives nothing, and two give one byte from their highest bits. */
  lemma TwoLeft(a: Byte, b: Byte)
    requires Digit(a) >= 0 && Digit(b) >= 0
    ensures Decoding([a]) == Some([])
    ensures Decoding([a, b]) == Some([((Digit(a) * 64 + Digit(b)) / 16) as char])
  {
    var d := Digit(a);
    DecodeNext(a, [], 0, 0);
    DecodeNext(a, [b], 0, 0);
    DecodeNext(b, [], d, 6);
    EmptyDecodes(d, 6);
    EmptyDecodes((d * 64 + Digit(b)) % 16, 4);
    var none: ByteString, x: ByteString := [], [((d * 64 + Digit(b)) / 16) as char];
    assert [a] + none == [a] && [a] + [b] == [a, b] && [b] + none == [b];
    assert none + none == none && none + (x + none) == x && x + none == x;
  }

  /** Behind a whole byte and four bits one more digit gives one more byte. */
  lemma LastLeft(low: nat, c: Byte)
    requires low < 16 && Digit(c) >= 0
    ensures DecodeFrom([c], low, 4) == Some([((low * 64 + Digit(c)) / 4) as char])
  {
    DecodeNext(c, [], low, 4);
    EmptyDecodes((low * 64 + Digit(c)) % 4, 2);
    var none: ByteString, x: ByteString := [], [((low * 64 + Digit(c)) / 4) as char];
    assert [c] + none == [c] && x + none == x;
  }

  // ----- the decoder -----

  /** A 32-bit signed integer after overflow. */
  function Wrap(n: int): (w: int)
    ensures -0x8000_0000 <= w < 0x8000_0000
  {
    (n + 0x8000_0000) % 0x1_0000_0000 - 0x8000_0000
  }

  lemma WrapMultiple(n: int) returns (k: int)
    ensures Wrap(n) == n - k * 0x1_0000_0000
  {
    k := (n + 0x8000_0000) / 0x1_0000_0000;
  }

  lemma Residue(w: int, q: int, r: int, m: int)
    requires m in {4, 16, 64, 256, 1024, 4096} && w == q * m + r && 0 <= r < m
    ensures w % m == r
  {
  }

  /** Overflow loses only bits that were already written out. */
  lemma WrapKeepsPending(buf: int, p: nat, bits: nat, d: nat)
    requires Pending(p, bits) && buf % Unit(bits) == p && d < 64
    ensures Wrap(buf * 64 + d) % (64 * Unit(bits)) == p * 64 + d
  {
    var k := WrapMultiple(buf * 64 + d);
    var w, q := Wrap(buf * 64 + d), buf / Unit(bits);
    if bits == 0 {
      Residue(w, buf - k * 0x400_0000, d, 64);
    } else if bits == 2 {
      Residue(w, q - k * 0x100_0000, p * 64 + d, 256);
    } else if bits == 4 {
      Residue(w, q - k * 0x40_0000, p * 64 + d, 1024);
    } else {
      Residue(w, q - k * 0x10_0000, p * 64 + d, 4096);
    }
  }

  /** The table from characters to digits. */
  method ReverseTable() returns (rev: array<int>)
    ensures fresh(rev) && rev.Length == 256 && forall c: Byte :: rev[c as int] == Digit(c)
  {
    rev := new int[256](_ => -1);
    for i := 0 to 64
      invariant forall c: Byte :: rev[c as int] == if Digit(c) < i then Digit(c) else -1
    {
      LetterDigit(i);
      DigitLetter(i);
      rev[Letter(i) as int] := i;
    }
  }

  lemma DigitLetter(n: nat)
    requires n < 64
    ensures forall c: Byte :: Digit(c) == n ==> c == Letter(n)
  {
  }

  method Decode(s: ByteString) returns (out: Option<ByteString>)
    ensures out == Decoding(s)
  {
    var rev := ReverseTable();
    var bytes: ByteString := [];
    var buf, bits := 0, 0;
    ghost var p: nat := 0;
    var i := 0;
    assert s[0..] == s;
    while i < |s|
      invariant i <= |s| && Pending(p, bits) && buf % Unit(bits) == p
      invariant forall c: Byte :: rev[c as int] == Digit(c)
      invariant Decoding(s) == Prepend(bytes, DecodeFrom(s[i..], p, bits))
    {
      if s[i] == '=' {
        break;
      }
      var v := rev[s[i] as int];
      if v < 0 {
        return None;
      }
      ghost var next := Step(p, bits, v);
      DecodeStep(s, i, bytes, p, bits, v, next);
      bytes, buf, bits := Shift(bytes, buf, bits, v, p);
      p := next.1;
      i := i + 1;
    }
    assert bytes + [] == bytes;
    out := Some(bytes);
  }

  function Prepend(bytes: ByteString, r: Option<ByteString>): (q: Option<ByteString>)
    ensures bytes == [] ==> q == r
  {
    match r
    case None => None
    case Some(rest) =>
      assert bytes == [] ==> bytes + rest == rest;
      Some(bytes + rest)
  }

  lemma DecodeStep(s: ByteString, i: nat, bytes: ByteString, p: nat, bits: nat, d: nat, next: (ByteString, nat, nat))
    requires i < |s| && Pending(p, bits) && s[i] != '=' && Digit(s[i]) == d && next == Step(p, bits, d)
    ensures Prepend(bytes, DecodeFrom(s[i..], p, bits)) == Prepend(bytes + next.0, DecodeFrom(s[i + 1..], next.1, next.2))
  {
    assert s[i..][1..] == s[i + 1..];
    var r := DecodeFrom(s[i + 1..], next.1, next.2);
    if r.Some? {
      assert bytes + (next.0 + r.value) == bytes + next.0 + r.value;
    }
  }

  /** Shifts one digit into the buffer and writes out a byte when eight bits are there. */
  method Shift(bytes: ByteString, buf: int, bits: nat, v: nat, ghost p: nat)
    returns (bytes': ByteString, buf': int, bits': nat)
    requires Pending(p, bits) && buf % Unit(bits) == p && v < 64
    ensures bytes' == bytes + Step(p, bits, v).0 && bits' == Step(p, bits, v).2
    ensures buf' % Unit(bits') == Step(p, bits, v).1
  {
    bytes' := bytes;
    buf' := Wrap(buf * 64 + v);
    WrapKeepsPending(buf, p, bits, v);
    bits' := bits + 6;
    if bits' >= 8 {
      bits' := bits' - 8;
      WholeByte(buf', p * 64 + v, bits');
      bytes' := bytes' + [(buf' / Unit(bits') % 256) as char];
    }
  }

  lemma WholeByte(w: int, n: nat, bits: nat)
    requires bits in {0, 2, 4} && w % (256 * Unit(bits)) == n
    ensures w / Unit(bits) % 256 == n / Unit(bits) && w % Unit(bits) == n % Unit(bits)
  {
    if bits == 0 {
    } else if bits == 2 {
      var k := w / 1024;
      assert w == 1024 * k + n;
      assert w / 4 == 256 * k + n / 4;
      Residue(w / 4, k, n / 4, 256);
      Residue(w, 256 * k + n / 4, n % 4, 4);
    } else {
      var k := w / 4096;
      assert w == 4096 * k + n;
      assert w / 16 == 256 * k + n / 16;
      Residue(w / 16, k, n / 16, 256);
      Residue(w, 256 * k + n / 16, n % 16, 16);
    }
  }

  // ----- the round trip -----

  lemma StepValues(a: nat, b: nat, c: nat)
    requires a < 256 && b < 256 && c < 256
    ensures Step(0, 0, a / 4) == ([], a / 4, 6)
    ensures Step(a / 4, 6, a % 4 * 16 + b / 16) == ([a as char], b / 16, 4)
    ensures Step(b / 16, 4, b % 16 * 4 + c / 64) == ([b as char], c / 64, 2)
    ensures Step(c / 64, 2, c % 64) == ([c as char], 0, 0)
  {
    assert (a / 4) * 64 + (a % 4 * 16 + b / 16) == 16 * a + b / 16;
    assert (b / 16) * 64 + (b % 16 * 4 + c / 64) == 4 * b + c / 64;
  }

  /** g begins with the first n digits of the group of a, b and c. */
  predicate BeginsWith(g: ByteString, a: Byte, b: Byte, c: Byte, n: nat)
    requires n <= |g|
  {
    && (n > 0 ==> Digit(g[0]) == a as int / 4)
    && (n > 1 ==> Digit(g[1]) == a as int % 4 * 16 + b as int / 16)
    && (n > 2 ==> Digit(g[2]) == b as int % 16 * 4 + c as int / 64)
    && (n > 3 ==> Digit(g[3]) == c as int % 64)
  }

  /** The first two digits of a group give its first byte. */
  lemma DecodeTwo(g: ByteString, a: Byte, b: Byte, c: Byte)
    requires |g| >= 2 && BeginsWith(g, a, b, c, 2)
    ensures Decoding(g) == Prepend([a], DecodeFrom(g[2..], b as int / 16, 4))
  {
    var x, y := a as int, b as int;
    StepValues(x, y, 0);
    assert g[0..] == g && [] + [a] == [a];
    DecodeStep(g, 0, [], 0, 0, x / 4, ([], x / 4, 6));
    DecodeStep(g, 1, [], x / 4, 6, x % 4 * 16 + y / 16, ([a], y / 16, 4));
  }

  /** The third digit gives its second byte. */
  lemma DecodeThree(g: ByteString, a: Byte, b: Byte, c: Byte)
    requires |g| >= 3 && BeginsWith(g, a, b, c, 3)
    ensures Decoding(g) == Prepend([a, b], DecodeFrom(g[3..], c as int / 64, 2))
  {
    var y, z := b as int, c as int;
    StepValues(0, y, z);
    DecodeTwo(g, a, b, c);
    assert [a] + [b] == [a, b];
    DecodeStep(g, 2, [a], y / 16, 4, y % 16 * 4 + z / 64, ([b], z / 64, 2));
  }

  /** The fourth digit gives its third byte, and nothing is pending. */
  lemma DecodeFour(g: ByteString, a: Byte, b: Byte, c: Byte)
    requires |g| >= 4 && BeginsWith(g, a, b, c, 4)
    ensures Decoding(g) == Prepend([a, b, c], Decoding(g[4..]))
  {
    var z := c as int;
    StepValues(0, 0, z);
    DecodeThree(g, a, b, c);
    assert [a, b] + [c] == [a, b, c];
    DecodeStep(g, 3, [a, b], z / 64, 2, z % 64, ([c], 0, 0));
  }

  lemma GroupBegins(x: ByteString, end: ByteString)
    requires x != []
    ensures |Digits(x) + end| > |x| || |Digits(x) + end| >= 4
    ensures BeginsWith(Digits(x) + end, ByteAt(x, 0), ByteAt(x, 1), ByteAt(x, 2), if |x| < 3 then |x| + 1 else 4)
  {
    QuadDigits(ByteAt(x, 0), ByteAt(x, 1), ByteAt(x, 2));
  }

  /** The last digits stand for one or two bytes; the bits left over are dropped. */
  lemma DecodeLast(g: ByteString, x: ByteString, end: ByteString)
    requires 0 < |x| < 3 && (end == [] || end[0] == '=')
    requires |g| > |x| && BeginsWith(g, ByteAt(x, 0), ByteAt(x, 1), ByteAt(x, 2), |x| + 1) && g[|x| + 1..] == end
    ensures Decoding(g) == Some(x)
  {
    assert x + [] == x;
    if |x| == 1 {
      assert x == [ByteAt(x, 0)];
      DecodeTwo(g, ByteAt(x, 0), ByteAt(x, 1), ByteAt(x, 2));
    } else {
      assert x == [ByteAt(x, 0), ByteAt(x, 1)];
      DecodeThree(g, ByteAt(x, 0), ByteAt(x, 1), ByteAt(x, 2));
    }
  }

  lemma {:induction false} DecodeDigits(x: ByteString, end: ByteString)
    requires end == [] || end[0] == '='
    ensures Decoding(Digits(x) + end) == Some(x)
  {
    var g := Digits(x) + end;
    if x == [] {
      assert g == end;
    } else if |x| < 3 {
      GroupBegins(x, end);
      assert g[|x| + 1..] == end;
      DecodeLast(g, x, end);
    } else {
      GroupBegins(x, end);
      assert g[4..] == Digits(x[3..]) + end;
      DecodeDigits(x[3..], end);
      DecodeWhole(g, x);
    }
  }

  lemma DecodeWhole(g: ByteString, x: ByteString)
    requires |x| >= 3 && |g| >= 4 && BeginsWith(g, ByteAt(x, 0), ByteAt(x, 1), ByteAt(x, 2), 4)
    requires Decoding(g[4..]) == Some(x[3..])
    ensures Decoding(g) == Some(x)
  {
    assert x == [x[0], x[1], x[2]] + x[3..];
    DecodeFour(g, x[0], x[1], x[2]);
  }

  /** Every byte string comes back, with its padding and without it. */
  lemma RoundTrip(x: ByteString)
    ensures Decoding(Encoding(x)) == Some(x)
    ensures Decoding(Digits(x)) == Some(x)
  {
    DecodeDigits(x, Padding(|x|));
    DecodeDigits(x, []);
    assert Digits(x) + [] == Digits(x);
  }

  // ----- comparing digests -----

  /** The url-safe alphabet is read as the standard one. */
  function StandardChar(c: Byte): Byte {
    if c == '-' then '+' else if c == '_' then '/' else c
  }

  function Standard(s: ByteString): ByteString {
    seq(|s|, i requires 0 <= i < |s| => StandardChar(s[i]))
  }

  function Stripped(s: ByteString): ByteString {
    if s != [] && s[|s| - 1] == '=' then Stripped(s[..|s| - 1]) else s
  }

  function Normal(s: ByteString): ByteString {
    Stripped(Standard(s))
  }

  method Normalize(s: ByteString) returns (r: ByteString)
    ensures r == Normal(s)
  {
    r := ToStandard(s);
    while r != [] && r[|r| - 1] == '='
      invariant Stripped(r) == Normal(s)
    {
      r := r[..|r| - 1];
    }
  }

  method ToStandard(s: ByteString) returns (r: ByteString)
    ensures r == Standard(s)
  {
    r := s;
    for i := 0 to |s|
      invariant |r| == |s| && forall k :: 0 <= k < |s| ==> r[k] == if k < i then StandardChar(s[k]) else s[k]
    {
      if r[i] == '-' {
        r := r[i := '+'];
      } else if r[i] == '_' {
        r := r[i := '/'];
      }
    }
  }

  method DigestMatches(expected: ByteString, actual: ByteString) returns (same: bool)
    ensures same == (Normal(expected) == Normal(actual))
  {
    var e := Normalize(expected);
    var a := Normalize(actual);
    same := e == a;
  }

  /** The same string in the url-safe alphabet. */
  function UrlSafe(s: ByteString): ByteString {
    seq(|s|, i requires 0 <= i < |s| => if s[i] == '+' then '-' else if s[i] == '/' then '_' else s[i])
  }

  lemma {:induction false} DigitsAreStandard(x: ByteString)
    ensures forall k :: 0 <= k < |Digits(x)| ==> Digit(Digits(x)[k]) >= 0 && Digits(x)[k] != '='
  {
    if x != [] {
      QuadDigits(ByteAt(x, 0), ByteAt(x, 1), ByteAt(x, 2));
      if |x| >= 3 {
        DigitsAreStandard(x[3..]);
      }
    }
  }

  lemma StripOne(d: ByteString)
    ensures Stripped(d + "=") == Stripped(d)
  {
    assert (d + "=")[..|d|] == d;
  }

  lemma StrippedPadding(d: ByteString, n: nat)
    requires forall k :: 0 <= k < |d| ==> d[k] != '='
    ensures Stripped(d) == d == Stripped(d + Padding(n))
  {
    assert Stripped(d) == d;
    StripOne(d);
    StripOne(d + "=");
    assert d + "=" + "=" == d + "==" && d + "" == d;
    hide Stripped;
  }

  lemma StandardOfSafe(s: ByteString)
    requires forall k :: 0 <= k < |s| ==> s[k] != '-' && s[k] != '_'
    ensures Standard(s) == s == Standard(UrlSafe(s))
  {
  }

  /** Padding and alphabet do not matter for the normal form of an encoding. */
  lemma NormalEncoding(x: ByteString)
    ensures Normal(Encoding(x)) == Normal(Digits(x)) == Digits(x)
    ensures Normal(UrlSafe(Encoding(x))) == Normal(UrlSafe(Digits(x))) == Digits(x)
  {
    DigitsAreStandard(x);
    StandardOfSafe(Digits(x));
    StandardOfSafe(Encoding(x));
    StrippedPadding(Digits(x), |x|);
  }

  /** Two digests match exactly when the digested bytes are equal, in whichever of the four
      spellings each is written. */
  lemma DigestsMatch(x: ByteString, y: ByteString, e: ByteString, a: ByteString)
    requires e in {Encoding(x), Digits(x), UrlSafe(Encoding(x)), UrlSafe(Digits(x))}
    requires a in {Encoding(y), Digits(y), UrlSafe(Encoding(y)), UrlSafe(Digits(y))}
    ensures Normal(e) == Normal(a) <==> x == y
  {
    NormalEncoding(x);
    NormalEncoding(y);
    RoundTrip(x);
    RoundTrip(y);
  }

  /** A length that no encoder produces is not an error. */
  lemma OddLengthIsAccepted()
    ensures Decoding("A") == Some([]) && forall x: ByteString :: Encoding(x) != "A" && Digits(x) != "A"
  {
    DecodingFails("A");
    assert Digit('A') == 0;
    forall x: ByteString
      ensures Encoding(x) != "A" && Digits(x) != "A"
    {
      RoundTrip(x);
      assert Decoding("A") == Some([]);
      assert x == [] || |Digits(x)| > 1;
    }
  }
}
