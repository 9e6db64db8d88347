/**
The text codings a vault file passes through: UTF-16 strings as Node holds them, their UTF-8 form
(section 3 of RFC 3629, with the replacement character for what has no encoding) and base64
(section 4 of RFC 4648).
*/
module TextCodings {
  import opened Common
  import opened Units

  type Byte = bv8
  type Text = seq<Unit>
  type Bytes = seq<Byte>

  const REPLACEMENT: Unit := 0xFFFD

  /** Every high surrogate is followed by a low one and every low one preceded by a high one. */
  ghost predicate WellFormed(s: Text) {
    && (forall i :: 0 <= i < |s| && IsHigh(s[i]) ==> i + 1 < |s| && IsLow(s[i + 1]))
    && (forall i :: 0 <= i < |s| && IsLow(s[i]) ==> i > 0 && IsHigh(s[i - 1]))
  }

  // ---- UTF-8 ----

  function EncodeUnit(c: Unit): (r: Bytes)
    ensures 1 <= |r| <= 3
  {
    if c < 0x80 then [c as Byte]
    else if c < 0x800 then [(0xC0 | (c >> 6)) as Byte, (0x80 | (c & 0x3F)) as Byte]
    else [(0xE0 | (c >> 12)) as Byte, (0x80 | ((c >> 6) & 0x3F)) as Byte, (0x80 | (c & 0x3F)) as Byte]
  }

  function CodePoint(hi: Unit, lo: Unit): bv32
    requires IsHigh(hi) && IsLow(lo)
  {
    0x10000 + (((hi - 0xD800) as bv32) << 10) + ((lo - 0xDC00) as bv32)
  }

  function Octet0(cp: bv32): Byte { (0xF0 | ((cp >> 18) & 0x07)) as Byte }
  function Octet1(cp: bv32): Byte { (0x80 | ((cp >> 12) & 0x3F)) as Byte }
  function Octet2(cp: bv32): Byte { (0x80 | ((cp >> 6) & 0x3F)) as Byte }
  function Octet3(cp: bv32): Byte { (0x80 | (cp & 0x3F)) as Byte }

  function EncodePair(hi: Unit, lo: Unit): (r: Bytes)
    requires IsHigh(hi) && IsLow(lo)
    ensures |r| == 4
  {
    var cp := CodePoint(hi, lo);
    [Octet0(cp), Octet1(cp), Octet2(cp), Octet3(cp)]
  }

  /** Buffer.from(s, 'utf8'): an unpaired surrogate becomes the replacement character. */
  function Encode(s: Text): Bytes {
    if s == [] then []
    else if IsHigh(s[0]) && |s| >= 2 && IsLow(s[1]) then EncodePair(s[0], s[1]) + Encode(s[2..])
    else if IsHigh(s[0]) || IsLow(s[0]) then EncodeUnit(REPLACEMENT) + Encode(s[1..])
    else EncodeUnit(s[0]) + Encode(s[1..])
  }

  predicate Continues(b: Byte) {
    0x80 <= b <= 0xBF
  }

  /** How many bytes a sequence with this lead byte has; 0 when no sequence starts with it. */
  function SequenceLength(lead: Byte): nat {
    if lead < 0x80 then 1
    else if 0xC2 <= lead <= 0xDF then 2
    else if 0xE0 <= lead <= 0xEF then 3
    else if 0xF0 <= lead <= 0xF4 then 4
    else 0
  }

  /** The second byte excludes overlong forms, surrogates and values past U+10FFFF. */
  predicate SecondFits(lead: Byte, second: Byte) {
    if lead == 0xE0 then 0xA0 <= second <= 0xBF
    else if lead == 0xED then 0x80 <= second <= 0x9F
    else if lead == 0xF0 then 0x90 <= second <= 0xBF
    else if lead == 0xF4 then 0x80 <= second <= 0x8F
    else Continues(second)
  }

  function Units2(b0: Byte, b1: Byte): Unit {
    (((b0 & 0x1F) as Unit) << 6) | ((b1 & 0x3F) as Unit)
  }

  function Units3(b0: Byte, b1: Byte, b2: Byte): Unit {
    (((b0 & 0x0F) as Unit) << 12) | (((b1 & 0x3F) as Unit) << 6) | ((b2 & 0x3F) as Unit)
  }

  function Joined(b0: Byte, b1: Byte, b2: Byte, b3: Byte): bv32 {
    (((b0 & 0x07) as bv32) << 18) | (((b1 & 0x3F) as bv32) << 12)
    | (((b2 & 0x3F) as bv32) << 6) | ((b3 & 0x3F) as bv32)
  }

  function HighOf(cp: bv32): Unit { (0xD800 + (((cp - 0x10000) >> 10) & 0x3FF)) as Unit }
  function LowOf(cp: bv32): Unit { (0xDC00 + ((cp - 0x10000) & 0x3FF)) as Unit }

  function Units4(b0: Byte, b1: Byte, b2: Byte, b3: Byte): Text {
    var cp := Joined(b0, b1, b2, b3);
    [HighOf(cp), LowOf(cp)]
  }

  /** One step of the decoder: what it emits and how many bytes it consumes. A malformed sequence
      consumes its longest acceptable beginning and emits one replacement character. */
  function DecodeStep(b: Bytes): (Text, nat)
    requires b != []
  {
    var n := SequenceLength(b[0]);
    if n == 1 then ([b[0] as Unit], 1)
    else if n == 0 || |b| < 2 || !SecondFits(b[0], b[1]) then ([REPLACEMENT], 1)
    else if n == 2 then ([Units2(b[0], b[1])], 2)
    else if |b| < 3 || !Continues(b[2]) then ([REPLACEMENT], 2)
    else if n == 3 then ([Units3(b[0], b[1], b[2])], 3)
    else if |b| < 4 || !Continues(b[3]) then ([REPLACEMENT], 3)
    else (Units4(b[0], b[1], b[2], b[3]), 4)
  }

  /** Buffer.toString('utf8'). */
  function Decode(b: Bytes): Text
    decreases |b|
  {
    if b == [] then [] else
    var (text, used) := DecodeStep(b);
    text + Decode(b[used..])
  }

  /** What UTF-8 keeps of a string. */
  function Scrub(s: Text): Text {
    if s == [] then []
    else if IsHigh(s[0]) && |s| >= 2 && IsLow(s[1]) then [s[0], s[1]] + Scrub(s[2..])
    else if IsHigh(s[0]) || IsLow(s[0]) then [REPLACEMENT] + Scrub(s[1..])
    else [s[0]] + Scrub(s[1..])
  }

  lemma UnitSurvives(c: Unit, rest: Bytes)
    requires !IsHigh(c) && !IsLow(c)
    ensures DecodeStep(EncodeUnit(c) + rest) == ([c], |EncodeUnit(c)|)
  {
    hide EncodeUnit, DecodeStep, Octets, Number, IsHigh, IsLow;
    var e := EncodeUnit(c);
    OctetsAreWritten(c);
    assert (e + rest)[..|e|] == e;
    OctetsAreRead(e + rest, |e|);
    var text := DecodeStep(e + rest).0;
    assert text == [text[0]];
  }

  lemma PairSurvives(hi: Unit, lo: Unit, rest: Bytes)
    requires IsHigh(hi) && IsLow(lo)
    ensures DecodeStep(EncodePair(hi, lo) + rest) == ([hi, lo], 4)
  {
    hide EncodePair, DecodeStep, Octets, Number, PairNumber, IsHigh, IsLow;
    var e := EncodePair(hi, lo);
    PairsAreWritten(hi, lo);
    assert (e + rest)[..4] == e;
    OctetsAreRead(e + rest, 4);
    var text := DecodeStep(e + rest).0;
    assert text == [text[0], text[1]];
    PairNumbersDiffer(hi, lo, text[0], text[1]);
  }

  lemma PairNumbersDiffer(a: Unit, b: Unit, c: Unit, d: Unit)
    requires IsHigh(a) && IsLow(b) && IsHigh(c) && IsLow(d)
    requires PairNumber(a, b) == PairNumber(c, d)
    ensures a == c && b == d
  {
  }

  lemma ReplacementIsPlain()
    ensures !IsHigh(REPLACEMENT) && !IsLow(REPLACEMENT)
  {
  }

  /** Decoding an encoded string gives the string with unpaired surrogates replaced. */
  lemma {:induction false} DecodeEncode(s: Text)
    ensures Decode(Encode(s)) == Scrub(s)
  {
    hide IsHigh, IsLow, EncodeUnit, EncodePair, DecodeStep;
    ReplacementIsPlain();
    if s == [] {
    } else if IsHigh(s[0]) && |s| >= 2 && IsLow(s[1]) {
      PairSurvives(s[0], s[1], Encode(s[2..]));
      DecodeEncode(s[2..]);
      assert Encode(s)[4..] == Encode(s[2..]);
    } else {
      var c := if IsHigh(s[0]) || IsLow(s[0]) then REPLACEMENT else s[0];
      UnitSurvives(c, Encode(s[1..]));
      DecodeEncode(s[1..]);
      assert Encode(s)[|EncodeUnit(c)|..] == Encode(s[1..]);
    }
  }

  /** UTF-8 loses nothing exactly when the string is well-formed. */
  lemma {:induction false} ScrubKeepsExactlyTheWellFormed(s: Text)
    ensures |Scrub(s)| == |s|
    ensures Scrub(s) == s <==> WellFormed(s)
  {
    hide IsHigh, IsLow;
    ReplacementIsPlain();
    if s == [] {
    } else if IsHigh(s[0]) && |s| >= 2 && IsLow(s[1]) {
      ScrubKeepsExactlyTheWellFormed(s[2..]);
      WellFormedTail(s, 2);
      assert s == [s[0], s[1]] + s[2..];
    } else {
      ScrubKeepsExactlyTheWellFormed(s[1..]);
      assert s == [s[0]] + s[1..];
      if !IsHigh(s[0]) && !IsLow(s[0]) {
        WellFormedTail(s, 1);
      }
    }
  }

  lemma WellFormedTail(s: Text, n: nat)
    requires (n == 1 && |s| >= 1 && !IsHigh(s[0]) && !IsLow(s[0]))
          || (n == 2 && |s| >= 2 && IsHigh(s[0]) && IsLow(s[1]))
    ensures WellFormed(s) <==> WellFormed(s[n..])
  {
    var t := s[n..];
    assert forall i :: 0 <= i < |t| ==> t[i] == s[i + n];
    if WellFormed(t) {
      forall i | 0 <= i < |s| && IsHigh(s[i])
        ensures i + 1 < |s| && IsLow(s[i + 1])
      {
        if i >= n {
          assert IsHigh(t[i - n]);
        }
      }
      forall i | 0 <= i < |s| && IsLow(s[i])
        ensures i > 0 && IsHigh(s[i - 1])
      {
        if i >= n {
          assert IsLow(t[i - n]);
        }
      }
    }
    if WellFormed(s) {
      forall i | 0 <= i < |t| && IsLow(t[i])
        ensures i > 0 && IsHigh(t[i - 1])
      {
        assert IsLow(s[i + n]);
      }
      forall i | 0 <= i < |t| && IsHigh(t[i])
        ensures i + 1 < |t| && IsLow(t[i + 1])
      {
        assert IsHigh(s[i + n]);
      }
    }
  }

  /** Whatever bytes come in, the decoder puts out a well-formed string. */
  lemma {:induction false} DecodeIsWellFormed(b: Bytes)
    ensures WellFormed(Decode(b))
    decreases |b|
  {
    if b != [] {
      var (text, used) := DecodeStep(b);
      DecodeIsWellFormed(b[used..]);
      WellFormedConcat(text, Decode(b[used..]));
    }
  }

  lemma WellFormedConcat(s: Text, t: Text)
    requires WellFormed(s) && WellFormed(t)
    ensures WellFormed(s + t)
  {
    hide IsHigh, IsLow;
  }

  // ---- base64 ----

  const PAD: Unit := 0x3D

  type Sextet = v: bv8 | v < 64 witness 0

  function Digit(v: Sextet): Unit {
    if v < 26 then 0x41 + v as Unit
    else if v < 52 then 0x61 + (v - 26) as Unit
    else if v < 62 then 0x30 + (v - 52) as Unit
    else if v == 62 then 0x2B else 0x2F
  }

  /** The decoder also takes the URL-safe digits. */
  function DigitValue(c: Unit): Option<Sextet> {
    if 0x41 <= c <= 0x5A then Some((c - 0x41) as bv8)
    else if 0x61 <= c <= 0x7A then Some((c - 0x61) as bv8 + 26)
    else if 0x30 <= c <= 0x39 then Some((c - 0x30) as bv8 + 52)
    else if c == 0x2B || c == 0x2D then Some(62)
    else if c == 0x2F || c == 0x5F then Some(63)
    else None
  }

  function Sextet0(x: Byte): Sextet { x >> 2 }
  function Sextet1(x: Byte, y: Byte): Sextet { ((x & 0x03) << 4) | (y >> 4) }
  function Sextet2(y: Byte, z: Byte): Sextet { ((y & 0x0F) << 2) | (z >> 6) }
  function Sextet3(z: Byte): Sextet { z & 0x3F }

  function Byte0(p: Sextet, q: Sextet): Byte { (p << 2) | (q >> 4) }
  function Byte1(q: Sextet, r: Sextet): Byte { ((q & 0x0F) << 4) | (r >> 2) }
  function Byte2(r: Sextet, s: Sextet): Byte { ((r & 0x03) << 6) | s }

  /** A missing byte counts as zero. */
  function ToSextets(b: Bytes): seq<Sextet> {
    if |b| == 0 then []
    else if |b| == 1 then [Sextet0(b[0]), Sextet1(b[0], 0)]
    else if |b| == 2 then [Sextet0(b[0]), Sextet1(b[0], b[1]), Sextet2(b[1], 0)]
    else [Sextet0(b[0]), Sextet1(b[0], b[1]), Sextet2(b[1], b[2]), Sextet3(b[2])] + ToSextets(b[3..])
  }

  function FromSextets(v: seq<Sextet>): Bytes {
    if |v| < 2 then []
    else if |v| == 2 then [Byte0(v[0], v[1])]
    else if |v| == 3 then [Byte0(v[0], v[1]), Byte1(v[1], v[2])]
    else [Byte0(v[0], v[1]), Byte1(v[1], v[2]), Byte2(v[2], v[3])] + FromSextets(v[4..])
  }

  function Digits(v: seq<Sextet>): Text {
    if v == [] then [] else [Digit(v[0])] + Digits(v[1..])
  }

  function Padding(n: nat): Text {
    if n % 3 == 1 then [PAD, PAD] else if n % 3 == 2 then [PAD] else []
  }

  /** Buffer.toString('base64'). */
  function ToBase64(b: Bytes): Text {
    Digits(ToSextets(b)) + Padding(|b|)
  }

  /** The decoder reads up to the padding and skips what is no digit. */
  function ReadDigits(t: Text): seq<Sextet> {
    if t == [] || t[0] == PAD then []
    else match DigitValue(t[0])
         case Some(v) => [v] + ReadDigits(t[1..])
         case None => ReadDigits(t[1..])
  }

  /** Buffer.from(t, 'base64'). */
  function FromBase64(t: Text): Bytes {
    FromSextets(ReadDigits(t))
  }

  lemma {:induction false} DigitsSurvive(v: seq<Sextet>, n: nat)
    ensures ReadDigits(Digits(v) + Padding(n)) == v
  {
    if v == [] {
      assert Digits(v) + Padding(n) == Padding(n);
    } else {
      DigitsSurvive(v[1..], n);
      assert (Digits(v) + Padding(n))[1..] == Digits(v[1..]) + Padding(n);
    }
  }

  lemma GroupSurvives(x: Byte, y: Byte, z: Byte)
    ensures Byte0(Sextet0(x), Sextet1(x, y)) == x
    ensures Byte1(Sextet1(x, y), Sextet2(y, z)) == y
    ensures Byte2(Sextet2(y, z), Sextet3(z)) == z
  {
  }

  lemma {:induction false} SextetsSurvive(b: Bytes)
    ensures FromSextets(ToSextets(b)) == b
  {
    if |b| == 0 {
    } else if |b| == 1 {
      GroupSurvives(b[0], 0, 0);
    } else if |b| == 2 {
      GroupSurvives(b[0], b[1], 0);
    } else {
      SextetsSurvive(b[3..]);
      assert b == [b[0], b[1], b[2]] + b[3..];
    }
  }

  lemma Base64Survives(b: Bytes)
    ensures FromBase64(ToBase64(b)) == b
  {
    DigitsSurvive(ToSextets(b), |b|);
    SextetsSurvive(b);
  }

  ghost predicate Plain(t: Text) {
    forall i :: 0 <= i < |t| ==> t[i] < 0x80 && t[i] != 0x0A
  }

  lemma {:induction false} DigitsArePlain(v: seq<Sextet>)
    ensures Plain(Digits(v))
  {
    if v != [] {
      DigitsArePlain(v[1..]);
    }
  }

  lemma Base64IsPlain(b: Bytes)
    ensures Plain(ToBase64(b)) && WellFormed(ToBase64(b))
  {
    DigitsArePlain(ToSextets(b));
  }

  // ---- the two codes bit by bit ----

  /** The digits are those of Table 1 of RFC 4648: from A, from a and from 0 on in ASCII order, then + and /. */
  lemma DigitsInOrder(v: Sextet)
    ensures Digit(0) == 'A' as Unit && Digit(26) == 'a' as Unit && Digit(52) == '0' as Unit
    ensures Digit(62) == '+' as Unit && Digit(63) == '/' as Unit
    ensures v != 25 && v != 51 && v < 61 ==> Digit(v + 1) == Digit(v) + 1
  {
  }

  /** A character is read as the digit it is, in either alphabet, and nothing else as any. */
  lemma DigitsReadExactly(c: Unit, v: Sextet)
    ensures DigitValue(c) == Some(v) <==> c == Digit(v) || (v == 62 && c == 0x2D) || (v == 63 && c == 0x5F)
  {
  }

  lemma {:induction false} SextetCount(b: Bytes)
    ensures |ToSextets(b)| == |b| / 3 * 4 + if |b| % 3 == 0 then 0 else |b| % 3 + 1
  {
    if |b| >= 3 {
      SextetCount(b[3..]);
    }
  }

  lemma {:induction false} DigitsAreNoPadding(v: seq<Sextet>, i: nat)
    requires i < |v|
    ensures |Digits(v)| == |v| && Digits(v)[i] != PAD
  {
    if |v| > 1 {
      DigitsAreNoPadding(v[1..], if i == 0 then 0 else i - 1);
    }
  }

  /** The text comes in groups of four, and only what completes the last group is padding. */
  lemma PaddingCompletesTheGroup(b: Bytes, i: nat)
    ensures |ToBase64(b)| == (|b| + 2) / 3 * 4
    ensures i < |ToBase64(b)| ==> (ToBase64(b)[i] == PAD <==> i >= |ToSextets(b)|)
  {
    var v := ToSextets(b);
    SextetCount(b);
    if v != [] {
      DigitsAreNoPadding(v, if i < |v| then i else 0);
    }
  }

  /** Three bytes and their four digits are the same 24 bits. */
  lemma GroupIsTheSameBits(x: Byte, y: Byte, z: Byte)
    ensures (Sextet0(x) as bv32 << 18) | (Sextet1(x, y) as bv32 << 12) | (Sextet2(y, z) as bv32 << 6) | (Sextet3(z) as bv32)
            == (x as bv32 << 16) | (y as bv32 << 8) | (z as bv32)
  {
  }

  predicate Tail(b: Byte) {
    b & 0xC0 == 0x80
  }

  /** One character in UTF-8, by the syntax in section 4 of RFC 3629. */
  predicate Octets(b: Bytes) {
    || (|b| == 1 && b[0] <= 0x7F)
    || (|b| == 2 && 0xC2 <= b[0] <= 0xDF && Tail(b[1]))
    || (|b| == 3 && Tail(b[1]) && Tail(b[2])
        && ((b[0] == 0xE0 && 0xA0 <= b[1]) || 0xE1 <= b[0] <= 0xEC || (b[0] == 0xED && b[1] <= 0x9F) || 0xEE <= b[0] <= 0xEF))
    || (|b| == 4 && Tail(b[1]) && Tail(b[2]) && Tail(b[3])
        && ((b[0] == 0xF0 && 0x90 <= b[1]) || 0xF1 <= b[0] <= 0xF3 || (b[0] == 0xF4 && b[1] <= 0x8F)))
  }

  function Six2(b0: Byte, b1: Byte): bv32 {
    ((b0 & 0x1F) as bv32 << 6) | (b1 & 0x3F) as bv32
  }

  function Six3(b0: Byte, b1: Byte, b2: Byte): bv32 {
    ((b0 & 0x0F) as bv32 << 12) | ((b1 & 0x3F) as bv32 << 6) | (b2 & 0x3F) as bv32
  }

  function Six4(b0: Byte, b1: Byte, b2: Byte, b3: Byte): bv32 {
    ((b0 & 0x07) as bv32 << 18) | ((b1 & 0x3F) as bv32 << 12) | ((b2 & 0x3F) as bv32 << 6) | (b3 & 0x3F) as bv32
  }

  /** The character number those octets hold, six bits to each octet after the first. */
  function Number(b: Bytes): bv32
    requires Octets(b)
  {
    if |b| == 1 then b[0] as bv32
    else if |b| == 2 then Six2(b[0], b[1])
    else if |b| == 3 then Six3(b[0], b[1], b[2])
    else Six4(b[0], b[1], b[2], b[3])
  }

  /** The number of a surrogate pair. */
  function PairNumber(hi: Unit, lo: Unit): bv32 {
    0x1_0000 + ((hi & 0x3FF) as bv32 << 10) + (lo & 0x3FF) as bv32
  }

  lemma TwoByteBits(c: Unit)
    requires 0x80 <= c < 0x800
    ensures var b0, b1 := (0xC0 | (c >> 6)) as Byte, (0x80 | (c & 0x3F)) as Byte;
            0xC2 <= b0 <= 0xDF && Tail(b1) && Six2(b0, b1) == c as bv32
  {
  }

  lemma ThreeByteBits(c: Unit)
    requires 0x800 <= c && !IsHigh(c) && !IsLow(c)
    ensures var b0, b1, b2 := (0xE0 | (c >> 12)) as Byte, (0x80 | ((c >> 6) & 0x3F)) as Byte, (0x80 | (c & 0x3F)) as Byte;
            && 0xE0 <= b0 <= 0xEF && Tail(b1) && Tail(b2) && (b0 == 0xE0 ==> 0xA0 <= b1) && (b0 == 0xED ==> b1 <= 0x9F)
            && Six3(b0, b1, b2) == c as bv32
  {
  }

  lemma PairBits(hi: Unit, lo: Unit)
    requires IsHigh(hi) && IsLow(lo)
    ensures CodePoint(hi, lo) == PairNumber(hi, lo) && 0x1_0000 <= CodePoint(hi, lo) <= 0x10_FFFF
  {
  }

  lemma FourByteBits(cp: bv32)
    requires 0x1_0000 <= cp <= 0x10_FFFF
    ensures 0xF0 <= Octet0(cp) <= 0xF4 && Tail(Octet1(cp)) && Tail(Octet2(cp)) && Tail(Octet3(cp))
    ensures (Octet0(cp) == 0xF0 ==> 0x90 <= Octet1(cp)) && (Octet0(cp) == 0xF4 ==> Octet1(cp) <= 0x8F)
  {
  }

  lemma FourByteNumber(cp: bv32)
    requires 0x1_0000 <= cp <= 0x10_FFFF
    ensures Six4(Octet0(cp), Octet1(cp), Octet2(cp), Octet3(cp)) == cp
  {
  }

  lemma UnitOctets(c: Unit) returns (b: Bytes)
    requires !IsHigh(c) && !IsLow(c)
    ensures b == EncodeUnit(c)
    ensures || (|b| == 1 && b[0] <= 0x7F && b[0] as bv32 == c as bv32)
            || (|b| == 2 && 0xC2 <= b[0] <= 0xDF && Tail(b[1]) && Six2(b[0], b[1]) == c as bv32)
            || (|b| == 3 && 0xE0 <= b[0] <= 0xEF && Tail(b[1]) && Tail(b[2]) && (b[0] == 0xE0 ==> 0xA0 <= b[1])
                && (b[0] == 0xED ==> b[1] <= 0x9F) && Six3(b[0], b[1], b[2]) == c as bv32)
  {
    hide Tail, Six2, Six3, IsHigh, IsLow;
    b := EncodeUnit(c);
    if 0x80 <= c < 0x800 {
      TwoByteBits(c);
    } else if 0x800 <= c {
      ThreeByteBits(c);
    }
  }

  /** What is written for a unit of its own is its number, and for a surrogate pair the number of the pair. */
  lemma OctetsAreWritten(c: Unit)
    requires !IsHigh(c) && !IsLow(c)
    ensures Octets(EncodeUnit(c)) && Number(EncodeUnit(c)) == c as bv32
  {
    hide Tail, Six2, Six3, Six4, IsHigh, IsLow, EncodeUnit;
    var b := UnitOctets(c);
  }

  lemma PairOctets(hi: Unit, lo: Unit) returns (b: Bytes)
    requires IsHigh(hi) && IsLow(lo)
    ensures b == EncodePair(hi, lo) && |b| == 4
    ensures 0xF0 <= b[0] <= 0xF4 && Tail(b[1]) && Tail(b[2]) && Tail(b[3])
    ensures (b[0] == 0xF0 ==> 0x90 <= b[1]) && (b[0] == 0xF4 ==> b[1] <= 0x8F)
    ensures Six4(b[0], b[1], b[2], b[3]) == PairNumber(hi, lo)
  {
    hide Tail, Six4, IsHigh, IsLow, CodePoint, PairNumber, Octet0, Octet1, Octet2, Octet3;
    PairBits(hi, lo);
    FourByteBits(CodePoint(hi, lo));
    FourByteNumber(CodePoint(hi, lo));
    b := EncodePair(hi, lo);
  }

  lemma PairsAreWritten(hi: Unit, lo: Unit)
    requires IsHigh(hi) && IsLow(lo)
    ensures Octets(EncodePair(hi, lo)) && Number(EncodePair(hi, lo)) == PairNumber(hi, lo)
  {
    hide Tail, Six2, Six3, Six4, IsHigh, IsLow, EncodePair, PairNumber;
    var b := PairOctets(hi, lo);
  }

  lemma TailContinues(b: Byte)
    ensures Tail(b) <==> Continues(b)
  {
  }

  lemma UnitsAreNumbers(b0: Byte, b1: Byte, b2: Byte)
    ensures Units2(b0, b1) as bv32 == Six2(b0, b1)
    ensures Units3(b0, b1, b2) as bv32 == Six3(b0, b1, b2)
  {
  }

  /** Four octets hold a number beyond the sixteen bits of a unit. */
  lemma FourByteRange(b0: Byte, b1: Byte, b2: Byte, b3: Byte)
    requires 0xF0 <= b0 <= 0xF4 && Tail(b1) && (b0 == 0xF0 ==> 0x90 <= b1) && (b0 == 0xF4 ==> b1 <= 0x8F)
    ensures 0x1_0000 <= Six4(b0, b1, b2, b3) <= 0x10_FFFF
  {
  }

  lemma SplitNumber(cp: bv32)
    requires 0x1_0000 <= cp <= 0x10_FFFF
    ensures IsHigh(HighOf(cp)) && IsLow(LowOf(cp)) && PairNumber(HighOf(cp), LowOf(cp)) == cp
  {
  }

  lemma JoinedBits(b0: Byte, b1: Byte, b2: Byte, b3: Byte)
    ensures Joined(b0, b1, b2, b3) == Six4(b0, b1, b2, b3)
  {
  }

  lemma PairsAreNumbers(b0: Byte, b1: Byte, b2: Byte, b3: Byte)
    requires 0xF0 <= b0 <= 0xF4 && Tail(b1) && (b0 == 0xF0 ==> 0x90 <= b1) && (b0 == 0xF4 ==> b1 <= 0x8F)
    ensures var text := Units4(b0, b1, b2, b3);
            |text| == 2 && IsHigh(text[0]) && IsLow(text[1]) && PairNumber(text[0], text[1]) == Six4(b0, b1, b2, b3)
  {
    hide IsHigh, IsLow, PairNumber, Tail, Six4, Joined, HighOf, LowOf;
    FourByteRange(b0, b1, b2, b3);
    JoinedBits(b0, b1, b2, b3);
    SplitNumber(Six4(b0, b1, b2, b3));
  }

  /** What is read from the octets of one character is its number, in one unit or as a surrogate pair. */
  lemma OctetsAreRead(b: Bytes, n: nat)
    requires n <= |b| && Octets(b[..n])
    ensures var (text, used) := DecodeStep(b);
            && used == n
            && if n < 4 then |text| == 1 && text[0] as bv32 == Number(b[..n])
               else |text| == 2 && IsHigh(text[0]) && IsLow(text[1]) && PairNumber(text[0], text[1]) == Number(b[..n])
  {
    hide Units2, Units3, Units4, Six2, Six3, Six4, IsHigh, IsLow, PairNumber, Tail, Continues;
    var c := b[..n];
    assert 1 <= n <= 4 && forall i :: 0 <= i < n ==> c[i] == b[i];
    forall i | 1 <= i < n
      ensures Tail(b[i]) <==> Continues(b[i])
    {
      TailContinues(b[i]);
    }
    if n == 2 {
      UnitsAreNumbers(b[0], b[1], 0);
    } else if n == 3 {
      TailRange(b[1]);
      UnitsAreNumbers(b[0], b[1], b[2]);
    } else if n == 4 {
      TailRange(b[1]);
      PairsAreNumbers(b[0], b[1], b[2], b[3]);
    }
  }

  lemma TailRange(b: Byte)
    ensures Tail(b) <==> 0x80 <= b <= 0xBF
  {
  }

  ghost predicate Begins(b: Bytes) {
    exists rest :: Octets(b + rest)
  }

  lemma ContinuedBegins(c: Bytes, rest: Bytes)
    requires Octets(c + rest)
    ensures Begins(c)
  {
  }

  /** Nothing but a lead byte begins a character, and nothing but a fitting second byte goes on. */
  lemma BeginsOnly(b: Bytes)
    requires b != [] && Begins(b)
    ensures SequenceLength(b[0]) > 0 && |b| <= SequenceLength(b[0])
    ensures |b| > 1 ==> SecondFits(b[0], b[1])
    ensures |b| > 2 ==> Continues(b[2])
    ensures |b| > 3 ==> Continues(b[3])
  {
    hide Tail, Continues;
    var rest :| Octets(b + rest);
    var c := b + rest;
    assert forall i :: 0 <= i < |b| ==> c[i] == b[i];
    TailContinues(c[if |c| > 1 then 1 else 0]);
    TailRange(c[if |c| > 1 then 1 else 0]);
    TailContinues(c[if |c| > 2 then 2 else 0]);
    TailContinues(c[if |c| > 3 then 3 else 0]);
  }

  /** A fitting second byte begins a character of three or four octets, and of four with a third. */
  lemma BeginsWith(b: Bytes)
    requires 2 <= |b| < SequenceLength(b[0]) && |b| <= 3 && SecondFits(b[0], b[1]) && (|b| == 3 ==> Continues(b[2]))
    ensures Begins(b)
  {
    hide Tail, Continues;
    var rest: Bytes := if |b| == 2 && SequenceLength(b[0]) == 4 then [0x80, 0x80] else [0x80];
    var c := b + rest;
    assert forall i :: 0 <= i < |b| ==> c[i] == b[i];
    TailContinues(b[1]);
    TailRange(b[1]);
    TailContinues(c[2]);
    TailRange(0x80);
    assert Octets(c);
    ContinuedBegins(b, rest);
  }

  /** The decoder emits text only for a whole character. */
  lemma WholeCharacter(b: Bytes, n: nat)
    requires n <= |b| && b != [] && n == SequenceLength(b[0]) > 0
    requires n > 1 ==> SecondFits(b[0], b[1])
    requires (n > 2 ==> Continues(b[2])) && (n > 3 ==> Continues(b[3]))
    ensures Octets(b[..n])
  {
    hide Tail, Continues;
    var c := b[..n];
    assert forall i :: 0 <= i < n ==> c[i] == b[i];
    if n > 1 {
      TailContinues(b[1]);
      TailRange(b[1]);
    }
    if n > 2 {
      TailContinues(b[2]);
    }
    if n > 3 {
      TailContinues(b[3]);
    }
  }

  /** Where no character starts, one replacement character stands for the longest beginning of one. */
  lemma MalformedIsReplaced(b: Bytes)
    requires b != [] && forall n :: 0 < n <= |b| ==> !Octets(b[..n])
    ensures var (text, used) := DecodeStep(b);
            && text == [REPLACEMENT] && 1 <= used <= |b|
            && (used > 1 ==> Begins(b[..used])) && (used < |b| ==> !Begins(b[..used + 1]))
  {
    var (text, used) := DecodeStep(b);
    var n := SequenceLength(b[0]);
    hide Octets, Begins, SequenceLength, SecondFits, Continues, Units2, Units3, Units4;
    if 0 < n <= |b| && (n > 1 ==> SecondFits(b[0], b[1])) && (n > 2 ==> Continues(b[2])) && (n > 3 ==> Continues(b[3])) {
      WholeCharacter(b, n);
      assert false;
    }
    if used > 1 {
      BeginsWith(b[..used]);
    }
    if used < |b| && Begins(b[..used + 1]) {
      BeginsOnly(b[..used + 1]);
    }
  }
}
