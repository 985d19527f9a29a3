/**
 Bytes and text: readers of base 64, written from RFC 4648, and of UTF-8, written from RFC 3629, and
 the proof that they read back what is encoded and that the measured sizes are numbers of bytes.
 */
module ByteReader {
  import opened Outcomes
  import opened JsonText

  // ----- base 64 (section 4 of RFC 4648)

  function Base64Value(c: CodePoint): (n: Option<nat>)
    ensures n.Some? ==> n.value < 64
  {
    if 'A' as int <= c <= 'Z' as int then Some(c - 'A' as int)
    else if 'a' as int <= c <= 'z' as int then Some(c - 'a' as int + 26)
    else if '0' as int <= c <= '9' as int then Some(c - '0' as int + 52)
    else if c == '+' as int then Some(62)
    else if c == '/' as int then Some(63)
    else None
  }

  /** Four characters of six bits each, regrouped into three bytes. */
  function ThreeBytes(a: nat, b: nat, c: nat, d: nat): (data: seq<Byte>)
    requires a < 64 && b < 64 && c < 64 && d < 64
    ensures |data| == 3
  {
    [a * 4 + b / 16, b % 16 * 16 + c / 4, c % 4 * 64 + d]
  }

  /** The bytes a padded text stands for; bits that the padding leaves over are zero. */
  function BytesOf(t: Text): Option<seq<Byte>> {
    if t == [] then Some([])
    else if |t| < 4 then None
    else
      var a, b, c, d := Base64Value(t[0]), Base64Value(t[1]), Base64Value(t[2]), Base64Value(t[3]);
      if a == None || b == None then None
      else if t[2] == '=' as int && t[3] == '=' as int && |t| == 4 then
        if b.value % 16 == 0 then Some(ThreeBytes(a.value, b.value, 0, 0)[..1]) else None
      else if c == None then None
      else if t[3] == '=' as int && |t| == 4 then
        if c.value % 4 == 0 then Some(ThreeBytes(a.value, b.value, c.value, 0)[..2]) else None
      else if d == None || BytesOf(t[4..]) == None then None
      else Some(ThreeBytes(a.value, b.value, c.value, d.value) + BytesOf(t[4..]).value)
  }

  lemma Base64DigitReads(n: nat)
    requires n < 64
    ensures Base64Value(Base64Digit(n)) == Some(n)
  {
  }

  /** The six-bit values of three bytes are those bytes. */
  lemma BitsRegroup(a: Byte, b: Byte, c: Byte)
    ensures ThreeBytes(a / 4, a % 4 * 16 + b / 16, b % 16 * 4 + c / 64, c % 64) == [a, b, c]
  {
    TwoParts(a % 4, b / 16, 16);
    TwoParts(b % 16, c / 64, 4);
    assert 4 * (a / 4) + a % 4 == a;
    assert 16 * (b / 16) + b % 16 == b;
    assert 64 * (c / 64) + c % 64 == c;
  }

  lemma TwoParts(high: nat, low: nat, k: nat)
    requires low < k && (k == 4 || k == 16)
    ensures (high * k + low) / k == high && (high * k + low) % k == low
  {
  }

  /** Four characters with these values. */
  ghost predicate HaveValues(t: Text, v0: nat, v1: nat, v2: Option<nat>, v3: Option<nat>) {
    && |t| >= 4 && Base64Value(t[0]) == Some(v0) && Base64Value(t[1]) == Some(v1)
    && (if v2.Some? then Base64Value(t[2]) == v2 else t[2] == 61)
    && (if v3.Some? then Base64Value(t[3]) == v3 else t[3] == 61)
  }

  lemma ValuesRead(t: Text, v0: nat, v1: nat, v2: nat, v3: nat, rest: seq<Byte>)
    requires v0 < 64 && v1 < 64 && v2 < 64 && v3 < 64
    requires HaveValues(t, v0, v1, Some(v2), Some(v3)) && BytesOf(t[4..]) == Some(rest)
    ensures BytesOf(t) == Some(ThreeBytes(v0, v1, v2, v3) + rest)
  {
  }

  lemma PaddedValuesRead(t: Text, v0: nat, v1: nat, v2: Option<nat>)
    requires v0 < 64 && v1 < 64 && |t| == 4 && HaveValues(t, v0, v1, v2, None)
    ensures v2.Some? && v2.value % 4 == 0 ==>
              v2.value < 64 && BytesOf(t) == Some(ThreeBytes(v0, v1, v2.value, 0)[..2])
    ensures v2 == None && v1 % 16 == 0 ==> BytesOf(t) == Some(ThreeBytes(v0, v1, 0, 0)[..1])
  {
  }

  lemma GroupValues(a: Byte, b: Byte, c: Byte)
    ensures HaveValues(Base64Group(a, b, c), a / 4, a % 4 * 16 + b / 16, Some(b % 16 * 4 + c / 64), Some(c % 64))
  {
    Base64DigitReads(a / 4);
    Base64DigitReads(a % 4 * 16 + b / 16);
    Base64DigitReads(b % 16 * 4 + c / 64);
    Base64DigitReads(c % 64);
  }

  lemma TripleReads(t: Text, group: Text, u: Text, a: Byte, b: Byte, c: Byte, rest: seq<Byte>)
    requires t == group + u && group == Base64Group(a, b, c) && BytesOf(u) == Some(rest)
    ensures BytesOf(t) == Some([a, b, c] + rest)
  {
    GroupValues(a, b, c);
    BitsRegroup(a, b, c);
    assert t[4..] == u;
    ValuesRead(t, a / 4, a % 4 * 16 + b / 16, b % 16 * 4 + c / 64, c % 64, rest);
  }

  lemma LastByteReads(t: Text, group: Text, a: Byte)
    requires group == Base64Group(a, 0, 0) && t == group[..2] + [61, 61]
    ensures BytesOf(t) == Some([a])
  {
    GroupValues(a, 0, 0);
    BitsRegroup(a, 0, 0);
    TwoParts(a % 4, 0, 16);
    assert t[0] == group[0] && t[1] == group[1] && t[2] == 61 && t[3] == 61;
    PaddedValuesRead(t, a / 4, a % 4 * 16, None);
    assert [a, 0, 0][..1] == [a];
  }

  lemma LastBytesRead(t: Text, group: Text, a: Byte, b: Byte)
    requires group == Base64Group(a, b, 0) && t == group[..3] + [61]
    ensures BytesOf(t) == Some([a, b])
  {
    GroupValues(a, b, 0);
    BitsRegroup(a, b, 0);
    TwoParts(b % 16, 0, 4);
    assert t[0] == group[0] && t[1] == group[1] && t[2] == group[2] && t[3] == 61;
    PaddedValuesRead(t, a / 4, a % 4 * 16 + b / 16, Some(b % 16 * 4));
    assert [a, b, 0][..2] == [a, b];
  }

  /** Base 64 reads back as the bytes. */
  lemma {:induction false} Base64Reads(data: seq<Byte>)
    ensures BytesOf(Base64(data)) == Some(data)
    decreases |data|
  {
    var t := Base64(data);
    if |data| == 1 {
      LastByteReads(t, Base64Group(data[0], 0, 0), data[0]);
      assert data == [data[0]];
    } else if |data| == 2 {
      LastBytesRead(t, Base64Group(data[0], data[1], 0), data[0], data[1]);
      assert data == [data[0], data[1]];
    } else if |data| > 2 {
      var a, b, c, rest := data[0], data[1], data[2], data[3..];
      Base64Reads(rest);
      TripleReads(t, Base64Group(a, b, c), Base64(rest), a, b, c, rest);
      FirstThree(data);
    }
  }

  lemma FirstThree(data: seq<Byte>)
    requires |data| > 2
    ensures data == [data[0], data[1], data[2]] + data[3..]
  {
  }

  // ----- UTF-8 (section 3 of RFC 3629)

  /** The bytes of one character. */
  function Utf8(c: CodePoint): seq<Byte>
    requires !IsSurrogate(c)
  {
    var q := c / 64;
    if c < 0x80 then [c]
    else if c < 0x800 then [0xC0 + q, 0x80 + c % 64]
    else if c < 0x1_0000 then [0xE0 + q / 64, 0x80 + q % 64, 0x80 + c % 64]
    else [0xF0 + q / 64 / 64, 0x80 + q / 64 % 64, 0x80 + q % 64, 0x80 + c % 64]
  }

  function Utf8OfAscii(t: Text): seq<Byte>
    requires forall k :: 0 <= k < |t| ==> t[k] < 128
  {
    seq(|t|, k requires 0 <= k < |t| => t[k])
  }

  /** The bytes of a text; a lone surrogate is spelled out in ASCII. */
  function Encode(t: Text): seq<Byte> {
    if t == [] then []
    else (if IsSurrogate(t[0]) then Utf8OfAscii(UnicodeEscape(t[0])) else Utf8(t[0])) + Encode(t[1..])
  }

  /** How many bytes a character has, by its first. */
  function LengthAt(b: seq<Byte>): nat {
    if b == [] then 0
    else if b[0] < 0x80 then 1
    else if 0xC0 <= b[0] < 0xE0 then 2
    else if 0xE0 <= b[0] < 0xF0 then 3
    else if 0xF0 <= b[0] < 0xF8 then 4
    else 0
  }

  /** Six more bits. */
  function Continue(high: nat, b: Byte): nat { high * 64 + b % 64 }

  /** The character that stands at the front, by the bits of its bytes. */
  function CharAt(b: seq<Byte>): nat
    requires 0 < LengthAt(b) <= |b|
  {
    var n := LengthAt(b);
    if n == 1 then b[0]
    else if n == 2 then Continue(b[0] % 32, b[1])
    else if n == 3 then Continue(Continue(b[0] % 16, b[1]), b[2])
    else Continue(Continue(Continue(b[0] % 8, b[1]), b[2]), b[3])
  }

  function Decode(b: seq<Byte>): Option<Text> {
    if b == [] then Some([])
    else if LengthAt(b) == 0 || LengthAt(b) > |b| || CharAt(b) >= 0x11_0000 then None
    else
      var more := Decode(b[LengthAt(b)..]);
      if more == None then None else Some([CharAt(b)] + more.value)
  }

  lemma SixBitsContinue(c: nat)
    ensures Continue(c / 64, 0x80 + c % 64) == c
  {
    assert 64 * (c / 64) + c % 64 == c;
    assert (128 + c % 64) % 64 == c % 64;
  }

  lemma LeadBits(n: nat)
    ensures n < 32 ==> (0xC0 + n) % 32 == n
    ensures n < 16 ==> (0xE0 + n) % 16 == n
    ensures n < 8 ==> (0xF0 + n) % 8 == n
  {
  }

  lemma Utf8Reads(c: CodePoint, rest: seq<Byte>)
    requires !IsSurrogate(c)
    ensures |Utf8(c)| == Utf8Bytes(c) == LengthAt(Utf8(c) + rest) && CharAt(Utf8(c) + rest) == c
  {
    var q := c / 64;
    SixBitsContinue(c);
    SixBitsContinue(q);
    SixBitsContinue(q / 64);
    LeadBits(q);
    LeadBits(q / 64);
    LeadBits(q / 64 / 64);
  }

  /** The measured size is the number of bytes, and they read back as the text when it has no lone surrogate. */
  lemma {:induction false} BytesRead(t: Text)
    ensures |Encode(t)| == Utf8Size(t)
    ensures (forall k :: 0 <= k < |t| ==> !IsSurrogate(t[k])) ==> Decode(Encode(t)) == Some(t)
  {
    if t != [] {
      BytesRead(t[1..]);
      assert forall k :: 0 <= k < |t[1..]| ==> t[1..][k] == t[k + 1];
      if !IsSurrogate(t[0]) {
        Utf8Reads(t[0], Encode(t[1..]));
        assert Encode(t)[Utf8Bytes(t[0])..] == Encode(t[1..]);
        assert [t[0]] + t[1..] == t;
      }
    }
  }
}
